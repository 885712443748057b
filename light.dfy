/**
 * The scene's lights: one ambient intensity and two singly linked lists,
 * directional lights and point lights. A list is empty when its head pointer
 * is null; lights are only ever appended at the tail.
 */
module Lights {
  import opened Types

  /** A light bulb at a position. */
  datatype PointLight = PointLight(intensity: real, pos: Vec3)

  /** A light arriving from one direction, like the sun. */
  datatype DirLight = DirLight(intensity: real, dir: Vec3)

  class PointLightNode {
    var data: PointLight
    var next: PointLightNode?

    constructor (data: PointLight)
      ensures this.data == data && next == null
    {
      this.data := data;
      next := null;
    }
  }

  class DirLightNode {
    var data: DirLight
    var next: DirLightNode?

    constructor (data: DirLight)
      ensures this.data == data && next == null
    {
      this.data := data;
      next := null;
    }
  }

  /** `nodes` is the point-light list starting at `first`, in link order, ending in null. */
  ghost predicate IsPointChain(first: PointLightNode?, nodes: seq<PointLightNode>)
    reads nodes`next
  {
    && (first == null <==> nodes == [])
    && (nodes != [] ==> nodes[0] == first && nodes[|nodes| - 1].next == null)
    && (forall i {:trigger nodes[i].next} :: 0 <= i < |nodes| - 1 ==> nodes[i].next == nodes[i + 1])
  }

  /** `nodes` is the directional-light list starting at `first`, in link order, ending in null. */
  ghost predicate IsDirChain(first: DirLightNode?, nodes: seq<DirLightNode>)
    reads nodes`next
  {
    && (first == null <==> nodes == [])
    && (nodes != [] ==> nodes[0] == first && nodes[|nodes| - 1].next == null)
    && (forall i {:trigger nodes[i].next} :: 0 <= i < |nodes| - 1 ==> nodes[i].next == nodes[i + 1])
  }

  /** The point lights held by a run of nodes, in list order. */
  ghost function PointLightsOf(nodes: seq<PointLightNode>): seq<PointLight>
    reads nodes`data
  {
    if nodes == [] then [] else [nodes[0].data] + PointLightsOf(nodes[1..])
  }

  /** The directional lights held by a run of nodes, in list order. */
  ghost function DirLightsOf(nodes: seq<DirLightNode>): seq<DirLight>
    reads nodes`data
  {
    if nodes == [] then [] else [nodes[0].data] + DirLightsOf(nodes[1..])
  }

  /** Every point-light node holds exactly one light: the i-th light is the i-th node's. */
  lemma {:induction false} PointLightsOfAt(nodes: seq<PointLightNode>)
    ensures |PointLightsOf(nodes)| == |nodes|
    ensures forall i :: 0 <= i < |nodes| ==> PointLightsOf(nodes)[i] == nodes[i].data
  {
    if nodes != [] {
      PointLightsOfAt(nodes[1..]);
    }
  }

  /** Every directional-light node holds exactly one light: the i-th light is the i-th node's. */
  lemma {:induction false} DirLightsOfAt(nodes: seq<DirLightNode>)
    ensures |DirLightsOf(nodes)| == |nodes|
    ensures forall i :: 0 <= i < |nodes| ==> DirLightsOf(nodes)[i] == nodes[i].data
  {
    if nodes != [] {
      DirLightsOfAt(nodes[1..]);
    }
  }

  /**
   * A point-light chain never repeats a node: if nodes i < j were the same, the
   * links would repeat from there on and the chain could not end in null.
   */
  lemma {:induction false} PointChainDistinct(first: PointLightNode?, nodes: seq<PointLightNode>, i: int, j: int)
    requires IsPointChain(first, nodes) && 0 <= i < j < |nodes|
    ensures nodes[i] != nodes[j]
    decreases |nodes| - j
  {
    if j < |nodes| - 1 {
      PointChainDistinct(first, nodes, i + 1, j + 1);
      assert nodes[i].next == nodes[i + 1] && nodes[j].next == nodes[j + 1];
    } else {
      assert nodes[i].next == nodes[i + 1];
    }
  }

  /** Linking a fresh last node after a point-light chain's tail extends the chain and its lights by that node. */
  lemma {:induction false} PointChainSnoc(first: PointLightNode, nodes: seq<PointLightNode>, node: PointLightNode)
    requires nodes != [] && nodes[0] == first && node !in nodes && node.next == null
    requires forall i {:trigger nodes[i].next} :: 0 <= i < |nodes| - 1 ==> nodes[i].next == nodes[i + 1]
    requires nodes[|nodes| - 1].next == node
    ensures IsPointChain(first, nodes + [node])
    ensures PointLightsOf(nodes + [node]) == PointLightsOf(nodes) + [node.data]
  {
    var ext := nodes + [node];
    assert forall i {:trigger ext[i].next} :: 0 <= i < |ext| - 1 ==> ext[i].next == ext[i + 1] by {
      forall i | 0 <= i < |ext| - 1
        ensures ext[i].next == ext[i + 1]
      {
        if i < |nodes| - 1 {
          assert ext[i] == nodes[i] && ext[i + 1] == nodes[i + 1];
        }
      }
    }
    PointLightsOfAt(nodes);
    PointLightsOfAt(ext);
  }

  /**
   * addPLight's list work: an empty list gets a fresh node holding `light` as its
   * head; otherwise the walk from `first` stops at the node whose next is
   * null and the fresh node is linked after it. The chain's lights gain
   * `light` at the end and the earlier nodes keep their order.
   */
  method AppendPointLight(first: PointLightNode?, ghost nodes: seq<PointLightNode>, light: PointLight)
    returns (head: PointLightNode, ghost nodes': seq<PointLightNode>)
    requires IsPointChain(first, nodes)
    modifies nodes`next
    ensures IsPointChain(head, nodes')
    ensures PointLightsOf(nodes') == old(PointLightsOf(nodes)) + [light]
    ensures |nodes'| == |nodes| + 1 && nodes'[..|nodes|] == nodes && fresh(nodes'[|nodes|])
    ensures first != null ==> head == first
  {
    var node := new PointLightNode(light);
    if first == null {
      head, nodes' := node, [node];
      assert PointLightsOf(nodes') == [node.data] + PointLightsOf([]);
    } else {
      head := first;
      var curr := first;
      ghost var i := 0;
      while curr.next != null
        invariant 0 <= i < |nodes| && curr == nodes[i]
        decreases |nodes| - i
      {
        curr := curr.next;
        i := i + 1;
      }
      curr.next := node;
      PointChainSnoc(first, nodes, node);
      nodes' := nodes + [node];
      assert nodes'[..|nodes|] == nodes;
    }
  }

  /**
   * A directional-light chain never repeats a node: if nodes i < j were the same, the
   * links would repeat from there on and the chain could not end in null.
   */
  lemma {:induction false} DirChainDistinct(first: DirLightNode?, nodes: seq<DirLightNode>, i: int, j: int)
    requires IsDirChain(first, nodes) && 0 <= i < j < |nodes|
    ensures nodes[i] != nodes[j]
    decreases |nodes| - j
  {
    if j < |nodes| - 1 {
      DirChainDistinct(first, nodes, i + 1, j + 1);
      assert nodes[i].next == nodes[i + 1] && nodes[j].next == nodes[j + 1];
    } else {
      assert nodes[i].next == nodes[i + 1];
    }
  }

  /** Linking a fresh last node after a directional-light chain's tail extends the chain and its lights by that node. */
  lemma {:induction false} DirChainSnoc(first: DirLightNode, nodes: seq<DirLightNode>, node: DirLightNode)
    requires nodes != [] && nodes[0] == first && node !in nodes && node.next == null
    requires forall i {:trigger nodes[i].next} :: 0 <= i < |nodes| - 1 ==> nodes[i].next == nodes[i + 1]
    requires nodes[|nodes| - 1].next == node
    ensures IsDirChain(first, nodes + [node])
    ensures DirLightsOf(nodes + [node]) == DirLightsOf(nodes) + [node.data]
  {
    var ext := nodes + [node];
    assert forall i {:trigger ext[i].next} :: 0 <= i < |ext| - 1 ==> ext[i].next == ext[i + 1] by {
      forall i | 0 <= i < |ext| - 1
        ensures ext[i].next == ext[i + 1]
      {
        if i < |nodes| - 1 {
          assert ext[i] == nodes[i] && ext[i + 1] == nodes[i + 1];
        }
      }
    }
    DirLightsOfAt(nodes);
    DirLightsOfAt(ext);
  }

  /**
   * addDLight's list work: an empty list gets a fresh node holding `light` as its
   * head; otherwise the walk from `first` stops at the node whose next is
   * null and the fresh node is linked after it. The chain's lights gain
   * `light` at the end and the earlier nodes keep their order.
   */
  method AppendDirLight(first: DirLightNode?, ghost nodes: seq<DirLightNode>, light: DirLight)
    returns (head: DirLightNode, ghost nodes': seq<DirLightNode>)
    requires IsDirChain(first, nodes)
    modifies nodes`next
    ensures IsDirChain(head, nodes')
    ensures DirLightsOf(nodes') == old(DirLightsOf(nodes)) + [light]
    ensures |nodes'| == |nodes| + 1 && nodes'[..|nodes|] == nodes && fresh(nodes'[|nodes|])
    ensures first != null ==> head == first
  {
    var node := new DirLightNode(light);
    if first == null {
      head, nodes' := node, [node];
      assert DirLightsOf(nodes') == [node.data] + DirLightsOf([]);
    } else {
      head := first;
      var curr := first;
      ghost var i := 0;
      while curr.next != null
        invariant 0 <= i < |nodes| && curr == nodes[i]
        decreases |nodes| - i
      {
        curr := curr.next;
        i := i + 1;
      }
      curr.next := node;
      DirChainSnoc(first, nodes, node);
      nodes' := nodes + [node];
      assert nodes'[..|nodes|] == nodes;
    }
  }

  class Light {
    var ambient: real
    var dirList: DirLightNode?
    var pointList: PointLightNode?
    ghost var dirNodes: seq<DirLightNode>
    ghost var pointNodes: seq<PointLightNode>

    /** Both lists are well formed and have their ghost node sequences. */
    ghost predicate Valid()
      reads this`dirList, this`dirNodes, this`pointList, this`pointNodes, dirNodes`next, pointNodes`next
    {
      ValidDir() && ValidPoint()
    }

    ghost predicate ValidDir()
      reads this`dirList, this`dirNodes, dirNodes`next
    {
      IsDirChain(dirList, dirNodes)
    }

    ghost predicate ValidPoint()
      reads this`pointList, this`pointNodes, pointNodes`next
    {
      IsPointChain(pointList, pointNodes)
    }

    /** The point lights, in the order they were added. */
    ghost function PointLights(): seq<PointLight>
      reads this`pointNodes, pointNodes`data
    {
      PointLightsOf(pointNodes)
    }

    /** The directional lights, in the order they were added. */
    ghost function DirLights(): seq<DirLight>
      reads this`dirNodes, dirNodes`data
    {
      DirLightsOf(dirNodes)
    }

    /** initLights: no ambient light and both lists empty. */
    constructor InitLights()
      ensures Valid()
      ensures ambient == 0.0 && dirList == null && pointList == null
      ensures DirLights() == [] && PointLights() == []
    {
      ambient := 0.0;
      dirList := null;
      pointList := null;
      dirNodes := [];
      pointNodes := [];
    }

    /** setAmbient: replaces the ambient intensity and nothing else. */
    method SetAmbient(intensity: real)
      modifies this`ambient
      ensures ambient == intensity
      ensures dirList == old(dirList) && pointList == old(pointList)
      ensures old(Valid()) ==> Valid() && DirLights() == old(DirLights()) && PointLights() == old(PointLights())
    {
      ambient := intensity;
    }

    /**
     * addPLight: appends one point light at the tail of the point list,
     * creating the head when the list is empty and otherwise walking to the
     * last node. The directional list and the ambient intensity are untouched.
     */
    method AddPLight(pos: Vec3, intensity: real)
      requires Valid()
      modifies this`pointList, this`pointNodes, pointNodes`next
      ensures Valid()
      ensures PointLights() == old(PointLights()) + [PointLight(intensity, pos)]
      ensures |pointNodes| == |old(pointNodes)| + 1 && pointNodes[..|old(pointNodes)|] == old(pointNodes)
      ensures fresh(pointNodes[|pointNodes| - 1]) && pointNodes[|pointNodes| - 1].next == null
      ensures old(pointList) != null ==> pointList == old(pointList)
      ensures dirList == old(dirList) && dirNodes == old(dirNodes) && DirLights() == old(DirLights())
      ensures ambient == old(ambient)
    {
      pointList, pointNodes := AppendPointLight(pointList, pointNodes, PointLight(intensity, pos));
    }

    /**
     * addDLight: appends one directional light at the tail of the
     * directional list, creating the head when the list is empty and
     * otherwise walking to the last node. The point list and the ambient
     * intensity are untouched.
     */
    method AddDLight(dir: Vec3, intensity: real)
      requires Valid()
      modifies this`dirList, this`dirNodes, dirNodes`next
      ensures Valid()
      ensures DirLights() == old(DirLights()) + [DirLight(intensity, dir)]
      ensures |dirNodes| == |old(dirNodes)| + 1 && dirNodes[..|old(dirNodes)|] == old(dirNodes)
      ensures fresh(dirNodes[|dirNodes| - 1]) && dirNodes[|dirNodes| - 1].next == null
      ensures old(dirList) != null ==> dirList == old(dirList)
      ensures pointList == old(pointList) && pointNodes == old(pointNodes) && PointLights() == old(PointLights())
      ensures ambient == old(ambient)
    {
      dirList, dirNodes := AppendDirLight(dirList, dirNodes, DirLight(intensity, dir));
    }

    /**
     * freeLights as a traversal: walks the directional list and then the
     * point list, each until null, visiting every node once in list order.
     */
    method FreeLights() returns (dirVisited: seq<DirLightNode>, pointVisited: seq<PointLightNode>)
      requires Valid()
      ensures dirVisited == dirNodes && pointVisited == pointNodes
    {
      dirVisited := [];
      var currDir := dirList;
      while currDir != null
        invariant |dirVisited| <= |dirNodes| && dirVisited == dirNodes[..|dirVisited|]
        invariant currDir == if |dirVisited| < |dirNodes| then dirNodes[|dirVisited|] else null
        decreases |dirNodes| - |dirVisited|
      {
        dirVisited := dirVisited + [currDir];
        currDir := currDir.next;
      }
      pointVisited := [];
      var currP := pointList;
      while currP != null
        invariant |pointVisited| <= |pointNodes| && pointVisited == pointNodes[..|pointVisited|]
        invariant currP == if |pointVisited| < |pointNodes| then pointNodes[|pointVisited|] else null
        decreases |pointNodes| - |pointVisited|
      {
        pointVisited := pointVisited + [currP];
        currP := currP.next;
      }
    }
  }
}
