/**
 The captured-textures list: heap nodes linked by `next`, with a head and a tail pointer, and
 the capture counter that hands out ids.
 */
module TextureList {

  datatype Texture = Texture(
    id: int, name: nat, ttype: int, frame: int, xoffset: int, yoffset: int,
    width: int, height: int, format: int, png: seq<int>)

  class Node {
    var data: Texture
    var next: Node?

    constructor (data: Texture)
      ensures this.data == data && next == null
    {
      this.data := data;
      next := null;
    }
  }

  /** Index of the first texture with the id, or the length if there is none. */
  function FirstWithId(textures: seq<Texture>, id: int): (i: nat)
    ensures i <= |textures|
    ensures i < |textures| ==> textures[i].id == id
    ensures forall j :: 0 <= j < i ==> textures[j].id != id
  {
    if textures == [] || textures[0].id == id then 0 else 1 + FirstWithId(textures[1..], id)
  }

  lemma {:induction false} FirstWithIdIs(textures: seq<Texture>, id: int, i: nat)
    requires i <= |textures| && forall j :: 0 <= j < i ==> textures[j].id != id
    requires i < |textures| ==> textures[i].id == id
    ensures FirstWithId(textures, id) == i
  {
    if i > 0 {
      assert forall j :: 0 <= j < i - 1 ==> textures[1..][j] == textures[j + 1];
      FirstWithIdIs(textures[1..], id, i - 1);
    }
  }

  /** The textures without the first one with the id. */
  function Without(textures: seq<Texture>, id: int): seq<Texture> {
    var i := FirstWithId(textures, id);
    if i < |textures| then Dropped(textures, i) else textures
  }

  function Dropped<T>(s: seq<T>, i: nat): seq<T>
    requires i < |s|
  {
    s[..i] + s[i + 1..]
  }

  lemma FrontNodes<T>(s: seq<T>, x: T)
    requires x !in s && forall j, k :: 0 <= j < k < |s| ==> s[j] != s[k]
    ensures var d := [x] + s;
      && (forall j :: 1 <= j < |d| ==> d[j] == s[j - 1])
      && (forall j, k :: 0 <= j < k < |d| ==> d[j] != d[k])
  {
  }

  lemma DroppedNodes<T>(s: seq<T>, i: nat)
    requires i < |s| && forall j, k :: 0 <= j < k < |s| ==> s[j] != s[k]
    ensures var d := Dropped(s, i);
      && |d| == |s| - 1
      && (forall j :: 0 <= j < i ==> d[j] == s[j])
      && (forall j :: i <= j < |d| ==> d[j] == s[j + 1])
      && (forall j, k :: 0 <= j < k < |d| ==> d[j] != d[k])
      && (forall x :: x in d ==> x in s)
  {
  }

  class List {
    var head: Node?
    var curr: Node?
    ghost var nodes: seq<Node>

    /** The nodes given to free, and the textures whose node and image were given to free. */
    ghost var freed: set<Node>
    ghost var released: seq<Texture>

    /** The nodes from head on, without a cycle and none of them freed; the tail pointer is the last one. */
    ghost predicate Valid()
      reads this, nodes
    {
      && (forall i :: 0 <= i < |nodes| ==> nodes[i] !in freed)
      && (forall i, j :: 0 <= i < j < |nodes| ==> nodes[i] != nodes[j])
      && head == NodeAt(0) && curr == NodeAt(|nodes| - 1)
      && (forall i {:trigger nodes[i].next} :: 0 <= i < |nodes| ==> nodes[i].next == NodeAt(i + 1))
    }

    ghost function NodeAt(i: int): Node?
      reads this
    {
      if 0 <= i < |nodes| then nodes[i] else null
    }

    ghost function Contents(): (textures: seq<Texture>)
      reads this, nodes
      ensures |textures| == |nodes|
    {
      seq(|nodes|, i requires 0 <= i < |nodes| reads this, nodes => nodes[i].data)
    }

    constructor ()
      ensures Valid() && Contents() == [] && nodes == [] && released == []
    {
      head, curr, nodes, freed, released := null, null, [], {}, [];
    }

    /** create_list: the new node becomes head and tail. `available` tells whether malloc succeeds. */
    method CreateList(t: Texture, available: bool) returns (node: Node?)
      requires Valid() && head == null
      modifies this
      ensures Valid() && (node != null <==> available)
      ensures Contents() == if available then [t] else []
      ensures freed == old(freed) && released == old(released)
      ensures forall n :: n in nodes ==> fresh(n)
    {
      if !available {
        return null;
      }
      node := new Node(t);
      head, curr := node, node;
      nodes := [node];
    }

    /** add_to_list: a new node at the end or at the front. */
    method Add(t: Texture, toEnd: bool, available: bool) returns (node: Node?)
      requires Valid()
      modifies this, nodes
      ensures Valid() && (node != null <==> available)
      ensures Contents() == if !available then old(Contents())
                            else if toEnd then old(Contents()) + [t] else [t] + old(Contents())
      ensures freed == old(freed) && released == old(released)
      ensures forall n :: n in nodes ==> n in old(nodes) || fresh(n)
    {
      if head == null {
        node := CreateList(t, available);
        return;
      }
      if !available {
        return null;
      }
      node := new Node(t);
      Link(node, toEnd);
    }

    /** The relinking of add_to_list for a list that is not empty. */
    method Link(node: Node, toEnd: bool)
      requires Valid() && head != null && node !in nodes && node !in freed && node.next == null
      modifies this, nodes`next, node`next
      ensures freed == old(freed) && released == old(released)
      ensures Valid() && nodes == if toEnd then old(nodes) + [node] else [node] + old(nodes)
    {
      if toEnd {
        LinkEnd(node);
      } else {
        LinkFront(node);
      }
    }

    method LinkEnd(node: Node)
      requires Valid() && head != null && node !in nodes && node !in freed && node.next == null
      modifies this, nodes`next
      ensures freed == old(freed) && released == old(released)
      ensures Valid() && nodes == old(nodes) + [node]
    {
      ghost var before := nodes;
      curr.next := node;
      curr := node;
      nodes := nodes + [node];
      assert forall i :: 0 <= i < |before| ==> nodes[i] == before[i];
    }

    method LinkFront(node: Node)
      requires Valid() && head != null && node !in nodes && node !in freed && node.next == null
      modifies this, node`next
      ensures freed == old(freed) && released == old(released)
      ensures Valid() && nodes == [node] + old(nodes)
    {
      ghost var before := nodes;
      node.next := head;
      head := node;
      nodes := [node] + nodes;
      FrontNodes(before, node);
      assert nodes[0].next == NodeAt(1);
      forall i | 1 <= i < |nodes|
        ensures nodes[i].next == NodeAt(i + 1)
      {
        assert nodes[i] == before[i - 1];
      }
    }

    /** search_in_list: the first node with the id, and the node before it. */
    method Search(id: int) returns (found: Node?, prev: Node?)
      requires Valid()
      ensures var i := FirstWithId(Contents(), id);
        && found == NodeAt(i)
        && (found != null ==> prev == NodeAt(i - 1))
    {
      found, prev := head, null;
      ghost var i := 0;
      while found != null && found.data.id != id
        invariant 0 <= i <= |nodes| && found == NodeAt(i) && prev == NodeAt(i - 1)
        invariant forall j :: 0 <= j < i ==> Contents()[j].id != id
        decreases |nodes| - i
      {
        prev := found;
        found := found.next;
        i := i + 1;
      }
      FirstWithIdIs(Contents(), id, i);
    }

    /** The relinking of delete_from_list, for the node at index `i`. */
    method Unlink(del: Node, prev: Node?, ghost i: nat)
      requires Valid() && i < |nodes| && del == nodes[i] && prev == NodeAt(i - 1)
      modifies this, nodes`next
      ensures Valid() && nodes == Dropped(old(nodes), i) && del !in nodes
      ensures freed == old(freed) && released == old(released)
    {
      DroppedNodes(nodes, i);
      if prev != null {
        prev.next := del.next;
      }
      if del == curr {
        curr := prev;
        if del == head {
          head := del.next;
        }
      } else if del == head {
        head := del.next;
      }
      nodes := Dropped(nodes, i);
    }

    /**
     delete_from_list: unlink the first node with the id and free it and its image; -1 if there
     is none. Nothing is freed twice, and what leaves the list is freed.
     */
    method Delete(id: int) returns (rc: int)
      requires Valid()
      modifies this, nodes
      ensures Valid() && Contents() == Without(old(Contents()), id)
      ensures rc == if FirstWithId(old(Contents()), id) < |old(Contents())| then 0 else -1
      ensures released == old(released) + if rc == 0 then [old(Contents()[FirstWithId(Contents(), id)])] else []
      ensures rc == 0 ==> old(nodes[FirstWithId(Contents(), id)]) !in old(freed)
      ensures freed == old(freed) + if rc == 0 then {old(nodes[FirstWithId(Contents(), id)])} else {}
      ensures forall n :: n in nodes ==> n in old(nodes)
    {
      ghost var i := FirstWithId(Contents(), id);
      var del, prev := Search(id);
      if del == null {
        return -1;
      }
      Remove(del, prev, i);
      rc := 0;
    }

    /** Unlink and free the node at index `i`. */
    method Remove(del: Node, prev: Node?, ghost i: nat)
      requires Valid() && i < |nodes| && del == nodes[i] && prev == NodeAt(i - 1)
      modifies this, nodes`next
      ensures Valid() && nodes == Dropped(old(nodes), i) && Contents() == Dropped(old(Contents()), i)
      ensures freed == old(freed) + {del} && released == old(released) + [old(Contents()[i])]
      ensures forall n :: n in nodes ==> n in old(nodes)
    {
      ghost var before := Contents();
      DroppedNodes(nodes, i);
      Unlink(del, prev, i);
      assert Contents() == Dropped(before, i);
      Free(del, before[i]);
    }

    /** The two calls of free for a node that has left the list, and its image. */
    ghost method Free(del: Node, texture: Texture)
      requires Valid() && del !in nodes && del !in freed
      modifies this`freed, this`released
      ensures Valid() && freed == old(freed) + {del} && released == old(released) + [texture]
    {
      freed, released := freed + {del}, released + [texture];
    }
  }

  // ------------------------------------------------------------------ captures

  /** Ids in strictly increasing order, all below the counter. */
  ghost predicate IdsBelow(textures: seq<Texture>, low: int, high: int) {
    && (forall i :: 0 <= i < |textures| ==> low <= textures[i].id < high)
    && (forall i, j :: 0 <= i < j < |textures| ==> textures[i].id < textures[j].id)
  }

  /** Only the first texture can have the lowest id. */
  lemma LowestIsFirst(textures: seq<Texture>, low: int, high: int)
    requires IdsBelow(textures, low, high) && textures != []
    ensures FirstWithId(textures, low) == if textures[0].id == low then 0 else |textures|
  {
    var first := textures[0].id;
    assert forall i :: 1 <= i < |textures| ==> first < textures[i].id;
    FirstWithIdIs(textures, low, if first == low then 0 else |textures|);
  }

  lemma TailAbove(textures: seq<Texture>, low: int, high: int)
    requires IdsBelow(textures, low, high) && textures != [] && textures[0].id == low
    ensures IdsBelow(textures[1..], low + 1, high)
  {
    var rest := textures[1..];
    forall i | 0 <= i < |rest|
      ensures low + 1 <= rest[i].id < high
    {
      assert rest[i] == textures[i + 1] && textures[0].id < textures[i + 1].id;
    }
    forall i, j | 0 <= i < j < |rest|
      ensures rest[i].id < rest[j].id
    {
      assert rest[i] == textures[i + 1] && rest[j] == textures[j + 1];
    }
  }

  lemma AllAbove(textures: seq<Texture>, low: int, high: int)
    requires IdsBelow(textures, low, high) && textures != [] && textures[0].id != low
    ensures IdsBelow(textures, low + 1, high)
  {
    forall i | 0 <= i < |textures|
      ensures low + 1 <= textures[i].id
    {
      assert i > 0 ==> textures[0].id < textures[i].id;
    }
  }

  lemma WithoutLowest(textures: seq<Texture>, low: int, high: int)
    requires IdsBelow(textures, low, high)
    ensures IdsBelow(Without(textures, low), low + 1, high)
  {
    if textures != [] {
      LowestIsFirst(textures, low, high);
      if textures[0].id == low {
        TailAbove(textures, low, high);
        assert Without(textures, low) == textures[1..];
      } else {
        AllAbove(textures, low, high);
        assert Without(textures, low) == textures;
      }
    }
  }

  /** What is deleted is the first texture, if it has the lowest id, or nothing. */
  lemma ReleasedLowest(released: seq<Texture>, textures: seq<Texture>, low: int, high: int)
    requires IdsBelow(textures, low, high)
    ensures var i := FirstWithId(textures, low);
      released + (if i < |textures| then [textures[i]] else []) + Without(textures, low) == released + textures
  {
    if textures != [] {
      LowestIsFirst(textures, low, high);
      if textures[0].id == low {
        assert Without(textures, low) == textures[1..];
        FirstMoves(released, textures);
      } else {
        assert released + [] == released;
      }
    } else {
      assert released + [] == released;
    }
  }

  lemma FirstMoves(released: seq<Texture>, textures: seq<Texture>)
    requires textures != []
    ensures released + [textures[0]] + textures[1..] == released + textures
  {
  }

  /** The capture module: the list and the counter nr_textures. */
  class Captures {
    const list: List
    var nrTextures: nat

    ghost predicate Valid()
      reads this, list, list.nodes
    {
      list.Valid() && IdsBelow(list.Contents(), 0, nrTextures)
    }

    constructor ()
      ensures Valid() && nrTextures == 0 && list.Contents() == [] && fresh(list)
    {
      list := new List();
      nrTextures := 0;
    }

    /** captexture: add at the end under the next id; the counter moves even if malloc fails. */
    method Capture(t: Texture, available: bool)
      requires Valid()
      modifies this, list, list.nodes
      ensures Valid() && nrTextures == old(nrTextures) + 1
      ensures list.Contents() == old(list.Contents()) + if available then [t.(id := old(nrTextures))] else []
      ensures available && |old(list.Contents())| == old(nrTextures) ==> |list.Contents()| == nrTextures
    {
      var node := list.Add(t.(id := nrTextures), true, available);
      nrTextures := nrTextures + 1;
    }

    /** deletetextures: delete every id handed out; the list ends up empty. */
    method DeleteAll()
      requires Valid()
      modifies this, list, list.nodes
      ensures Valid() && nrTextures == 0 && list.Contents() == [] && list.head == list.curr == null
      ensures list.released == old(list.released) + old(list.Contents())
    {
      var i := 0;
      ghost var all, before := list.Contents(), list.released;
      ghost var nodes := list.nodes;
      while i < nrTextures
        invariant 0 <= i <= nrTextures
        invariant list.Valid() && IdsBelow(list.Contents(), i, nrTextures)
        invariant forall n :: n in list.nodes ==> n in nodes
        invariant list.released + list.Contents() == before + all
      {
        ReleasedLowest(list.released, list.Contents(), i, nrTextures);
        WithoutLowest(list.Contents(), i, nrTextures);
        assert forall k :: 0 <= k < |list.nodes| ==> list.nodes[k] in old(list.nodes);
        assert (set o: object | o in list.nodes) <= old(set o: object | o in list.nodes);
        var rc := list.Delete(i);
        i := i + 1;
      }
      nrTextures := 0;
      IdsFit(list.Contents(), i, i);
    }
  }

  lemma {:induction false} IdsAtLeastIndex(textures: seq<Texture>, low: int, high: int)
    requires IdsBelow(textures, low, high)
    ensures forall i :: 0 <= i < |textures| ==> low + i <= textures[i].id
    decreases |textures|
  {
    if textures != [] {
      var k := |textures| - 1;
      var front := textures[..k];
      assert forall i :: 0 <= i < k ==> front[i] == textures[i];
      IdsAtLeastIndex(front, low, high);
      assert forall i :: 0 <= i < k ==> low + i <= front[i].id == textures[i].id;
      assert k > 0 ==> textures[k - 1].id < textures[k].id;
    }
  }

  /** There are no more increasing ids than numbers between the bounds. */
  lemma IdsFit(textures: seq<Texture>, low: int, high: int)
    requires IdsBelow(textures, low, high) && low <= high
    ensures |textures| <= high - low
  {
    IdsAtLeastIndex(textures, low, high);
    assert textures != [] ==> low + (|textures| - 1) <= textures[|textures| - 1].id < high;
  }

  /** As many increasing ids below n as there can be are exactly 0, 1, ..., n - 1. */
  lemma FullIdsAreConsecutive(textures: seq<Texture>, n: nat)
    requires IdsBelow(textures, 0, n) && |textures| == n
    ensures forall i :: 0 <= i < n ==> textures[i].id == i
  {
    IdsAtLeastIndex(textures, 0, n);
    forall i | 0 <= i < n
      ensures textures[i].id == i
    {
      var rest := textures[i + 1..];
      var id := textures[i].id;
      assert forall j :: 0 <= j < |rest| ==> rest[j] == textures[i + 1 + j];
      assert IdsBelow(rest, id + 1, n);
      IdsFit(rest, id + 1, n);
    }
  }
}
