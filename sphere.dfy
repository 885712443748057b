/**
 * The scene's sphere list: a singly linked list whose head node exists from
 * the start with no sphere in it. The first sphere added fills the head;
 * every later one is linked in a new node at the tail.
 */
module Spheres {
  import opened Types
  import opened Color

  /** A sphere of the scene with its precomputed squared radius. */
  datatype Sphere = Sphere(center: Vec3, radius: uint32, color: Rgb, specular: uint32,
                           reflectivity: real, rSquare: uint32)

  /** `rSquare` is `radius * radius` computed in uint32, i.e. modulo 2^32. */
  predicate RSquareInvariant(s: Sphere)
  {
    s.rSquare == Wrap32(s.radius * s.radius)
  }

  /** The sphere record addSphere stores: every argument kept as passed, plus rSquare. */
  function MakeSphere(center: Vec3, color: Rgb, radius: uint32, spec: uint32, reflectivity: real): (s: Sphere)
    ensures s.center == center && s.color == color && s.radius == radius
    ensures s.specular == spec && s.reflectivity == reflectivity
    ensures RSquareInvariant(s)
    ensures radius < 0x1_0000 ==> s.rSquare == radius * radius
  {
    var rSquare := Wrap32(radius * radius);
    SmallSquare(radius);
    Sphere(center, radius, color, spec, reflectivity, rSquare)
  }

  lemma SmallSquare(r: nat)
    ensures r < 0x1_0000 ==> r * r < 0x1_0000_0000
  {
    if r < 0x1_0000 {
      MulMono(r, 0xFFFF, r);
      MulMono(r, 0xFFFF, 0xFFFF);
    }
  }

  /** One node of the list; `data` is None only in the head of an empty scene. */
  class SphereNode {
    var data: Option<Sphere>
    var next: SphereNode?

    constructor (data: Option<Sphere>)
      ensures this.data == data && next == null
    {
      this.data := data;
      next := null;
    }
  }

  /**
   * `nodes` is the list starting at `head`, in link order: consecutive nodes
   * are linked, the last has no successor, only the head may be empty and
   * then it is alone, and every stored sphere keeps rSquare.
   */
  ghost predicate IsSphereList(head: SphereNode, nodes: seq<SphereNode>)
    reads nodes`next, nodes`data
  {
    && |nodes| >= 1
    && nodes[0] == head
    && (forall i {:trigger nodes[i].next} :: 0 <= i < |nodes| - 1 ==> nodes[i].next == nodes[i + 1])
    && nodes[|nodes| - 1].next == null
    && (forall i :: 1 <= i < |nodes| ==> nodes[i].data.Some?)
    && (head.data.None? ==> |nodes| == 1)
    && (forall i :: 0 <= i < |nodes| && nodes[i].data.Some? ==> RSquareInvariant(nodes[i].data.value))
  }

  /** The spheres held by a run of nodes, in list order; empty nodes hold none. */
  ghost function SpheresOf(nodes: seq<SphereNode>): seq<Sphere>
    reads nodes`data
  {
    if nodes == [] then []
    else (if nodes[0].data.Some? then [nodes[0].data.value] else []) + SpheresOf(nodes[1..])
  }

  lemma {:induction false} SpheresOfAppend(a: seq<SphereNode>, b: seq<SphereNode>)
    ensures SpheresOf(a + b) == SpheresOf(a) + SpheresOf(b)
  {
    if a == [] {
      assert a + b == b;
    } else {
      assert (a + b)[1..] == a[1..] + b;
      SpheresOfAppend(a[1..], b);
    }
  }

  /** A run of nodes that all hold a sphere yields exactly one sphere per node. */
  lemma {:induction false} SpheresOfFull(nodes: seq<SphereNode>)
    requires forall i :: 0 <= i < |nodes| ==> nodes[i].data.Some?
    ensures |SpheresOf(nodes)| == |nodes|
    ensures forall i :: 0 <= i < |nodes| ==> SpheresOf(nodes)[i] == nodes[i].data.value
  {
    if nodes != [] {
      SpheresOfFull(nodes[1..]);
    }
  }

  /**
   * A well-formed list with n >= 1 spheres has exactly n nodes, the i-th
   * holding the i-th sphere; the empty scene is the single empty head.
   */
  lemma SphereListShape(head: SphereNode, nodes: seq<SphereNode>)
    requires IsSphereList(head, nodes)
    ensures |nodes| == if |SpheresOf(nodes)| == 0 then 1 else |SpheresOf(nodes)|
    ensures head.data.Some? ==> forall i :: 0 <= i < |nodes| ==> SpheresOf(nodes)[i] == nodes[i].data.value
    ensures forall s :: s in SpheresOf(nodes) ==> RSquareInvariant(s)
  {
    if head.data.None? {
      assert nodes == [head];
      assert SpheresOf(nodes) == SpheresOf(nodes[1..]);
    } else {
      SpheresOfFull(nodes);
    }
  }

  /**
   * A sphere list never repeats a node: if nodes i < j were the same, the
   * links would repeat from there on and the list could not end in null.
   */
  lemma {:induction false} SphereListDistinct(head: SphereNode, nodes: seq<SphereNode>, i: int, j: int)
    requires IsSphereList(head, nodes) && 0 <= i < j < |nodes|
    ensures nodes[i] != nodes[j]
    decreases |nodes| - j
  {
    if j < |nodes| - 1 {
      SphereListDistinct(head, nodes, i + 1, j + 1);
      assert nodes[i].next == nodes[i + 1] && nodes[j].next == nodes[j + 1];
    } else {
      assert nodes[i].next == nodes[i + 1];
    }
  }

  /** Linking a fresh full node after the last node of a non-empty list extends it by that node. */
  lemma LinkedAtTail(head: SphereNode, nodes: seq<SphereNode>, node: SphereNode)
    requires |nodes| >= 1 && nodes[0] == head && head.data.Some?
    requires forall i {:trigger nodes[i].next} :: 0 <= i < |nodes| - 1 ==> nodes[i].next == nodes[i + 1]
    requires nodes[|nodes| - 1].next == node && node.next == null && node !in nodes
    requires forall i :: 0 <= i < |nodes| ==> nodes[i].data.Some? && RSquareInvariant(nodes[i].data.value)
    requires node.data.Some? && RSquareInvariant(node.data.value)
    ensures IsSphereList(head, nodes + [node])
  {
  }

  /** initSpheres: a single head node with no sphere and no successor. */
  method InitSpheres() returns (list: SphereNode, ghost nodes: seq<SphereNode>)
    ensures fresh(list)
    ensures list.data == None && list.next == null
    ensures nodes == [list] && IsSphereList(list, nodes) && SpheresOf(nodes) == []
  {
    list := new SphereNode(None);
    nodes := [list];
  }

  /**
   * addSphere's work on a list whose head already holds a sphere: walks from
   * the head to the node whose next is null and links a fresh node holding
   * `s` after it.
   */
  method AppendSphereNode(list: SphereNode, ghost nodes: seq<SphereNode>, s: Sphere) returns (ghost nodes': seq<SphereNode>)
    requires IsSphereList(list, nodes) && list.data.Some? && RSquareInvariant(s)
    modifies nodes`next
    ensures IsSphereList(list, nodes')
    ensures SpheresOf(nodes') == old(SpheresOf(nodes)) + [s]
    ensures |nodes'| == |nodes| + 1 && nodes'[..|nodes|] == nodes
    ensures fresh(nodes'[|nodes|]) && nodes'[|nodes|].next == null
  {
    var curr := list;
    ghost var i := 0;
    while curr.next != null
      invariant 0 <= i < |nodes| && curr == nodes[i]
      decreases |nodes| - i
    {
      curr := curr.next;
      i := i + 1;
    }
    SphereListShape(list, nodes);
    var node := new SphereNode(Some(s));
    curr.next := node;
    nodes' := nodes + [node];
    SpheresOfAppend(nodes, [node]);
    assert SpheresOf([node]) == [s] + SpheresOf([node][1..]);
    LinkedAtTail(list, nodes, node);
    assert nodes'[..|nodes|] == nodes;
  }

  /**
   * addSphere: on a missing list reports an error and changes nothing; on an
   * empty head fills it in place; otherwise walks to the tail and links one
   * new node. Either way the scene's spheres gain exactly the new one at the
   * end and the earlier nodes keep their order.
   */
  method AddSphere(list: SphereNode?, ghost nodes: seq<SphereNode>, center: Vec3, color: Rgb,
                   radius: uint32, spec: uint32, reflectivity: real)
    returns (ok: bool, ghost nodes': seq<SphereNode>)
    requires list != null ==> IsSphereList(list, nodes)
    modifies nodes
    ensures ok <==> list != null
    ensures !ok ==> nodes' == nodes && forall n :: n in nodes ==> n.data == old(n.data) && n.next == old(n.next)
    ensures ok ==> IsSphereList(list, nodes')
    ensures ok ==> SpheresOf(nodes') == old(SpheresOf(nodes)) + [MakeSphere(center, color, radius, spec, reflectivity)]
    ensures ok && old(list.data).None? ==> nodes' == nodes
    ensures ok && old(list.data).Some? ==>
      && |nodes'| == |nodes| + 1
      && nodes'[..|nodes|] == nodes
      && fresh(nodes'[|nodes|])
      && nodes'[|nodes|].next == null
  {
    if list == null {
      ok, nodes' := false, nodes;
      return;
    }
    ok := true;
    var s := MakeSphere(center, color, radius, spec, reflectivity);
    if list.data == None {
      assert nodes == [list];
      list.data := Some(s);
      nodes' := nodes;
      assert SpheresOf(nodes'[1..]) == [];
    } else {
      nodes' := AppendSphereNode(list, nodes, s);
    }
  }

  /**
   * freeSphereList as a traversal: follows `next` from the head until null,
   * visiting every node once in list order and releasing the sphere of every
   * node that holds one.
   */
  method FreeSphereList(list: SphereNode?, ghost nodes: seq<SphereNode>)
    returns (visited: seq<SphereNode>, released: seq<Sphere>)
    requires list != null ==> IsSphereList(list, nodes)
    ensures list == null ==> visited == [] && released == []
    ensures list != null ==> visited == nodes && released == SpheresOf(nodes)
  {
    visited, released := [], [];
    var curr := list;
    while curr != null
      invariant list != null ==> |visited| < |nodes| + 1
      invariant list != null ==> visited == nodes[..|visited|]
      invariant list != null ==> released == SpheresOf(visited)
      invariant list != null ==> curr == if |visited| < |nodes| then nodes[|visited|] else null
      invariant list == null ==> curr == null && visited == [] && released == []
      decreases if list == null then 0 else |nodes| - |visited|
    {
      if curr.data != None {
        released := released + [curr.data.value];
      }
      SpheresOfAppend(visited, [curr]);
      visited := visited + [curr];
      curr := curr.next;
    }
  }
}
