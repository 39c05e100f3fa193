/** The forward queue as the linked list of `struct segment`, spliced in place. `TcpSession` holds
    the same queue as a sequence; both are proved against the same functions. */
module ForwardList {
  import opened Serial
  import opened TcpTypes
  import Spec = TcpSpec
  import TcpStream

  class SegmentNode {
    var segment: Segment
    var next: SegmentNode?

    constructor (segment: Segment, next: SegmentNode?)
      ensures this.segment == segment && this.next == next
    {
      this.segment, this.next := segment, next;
    }
  }

  class SegmentList {
    var forward: SegmentNode?
    ghost var nodes: seq<SegmentNode>
    ghost var contents: seq<Segment>

    ghost predicate Valid()
      reads this, nodes
    {
      && (forall i, j :: 0 <= i < j < |nodes| ==> nodes[i] != nodes[j])
      && forward == NodeAt(0) && |contents| == |nodes|
      && (forall i {:trigger nodes[i].segment} :: 0 <= i < |nodes| ==> nodes[i].segment == contents[i])
      && (forall i {:trigger nodes[i].next} :: 0 <= i < |nodes| ==> nodes[i].next == NodeAt(i + 1))
    }

    /** The node at position i, null past the end. */
    ghost function NodeAt(i: nat): SegmentNode?
      reads this
    {
      if i < |nodes| then nodes[i] else null
    }

    ghost function NodeBefore(i: nat): SegmentNode?
      reads this
    {
      if i == 0 then null else NodeAt(i - 1)
    }

    constructor ()
      ensures Valid() && contents == []
    {
      forward, nodes, contents := null, [], [];
    }

    /** Links a new node in at the front. */
    method LinkFront(segment: Segment)
      requires Valid()
      modifies this
      ensures Valid() && contents == [segment] + old(contents)
      ensures forall k :: 0 <= k < |nodes| ==> nodes[k] in old(nodes) || fresh(nodes[k])
    {
      var n := new SegmentNode(segment, forward);
      forward := n;
      nodes, contents := [n] + nodes, [segment] + contents;
    }

    /** Links a new node in behind the node p at position i. */
    method LinkBehind(p: SegmentNode, segment: Segment, ghost i: nat)
      requires Valid() && i < |nodes| && p == nodes[i]
      modifies this, p
      ensures Valid() && contents == old(contents)[..i + 1] + [segment] + old(contents)[i + 1..]
      ensures forall k :: 0 <= k < |nodes| ==> nodes[k] in old(nodes) || fresh(nodes[k])
    {
      var n := new SegmentNode(segment, p.next);
      p.next := n;
      ghost var ns, cs := nodes, contents;
      nodes, contents := ns[..i + 1] + [n] + ns[i + 1..], cs[..i + 1] + [segment] + cs[i + 1..];
      Spliced(ns, n, i + 1);
      Spliced(cs, segment, i + 1);
      forall k {:trigger nodes[k].next} | 0 <= k < |nodes|
        ensures nodes[k].next == NodeAt(k + 1) && nodes[k].segment == contents[k]
      {
        if k <= i {
          assert nodes[k] == ns[k];
        } else if k > i + 1 {
          assert nodes[k] == ns[k - 1];
        }
      }
    }

    /** The list walk of `queue_tcp`: the first node that is not before a number, and the node in
        front of it. */
    method Seek(seqNo: u32) returns (p: SegmentNode?, s: SegmentNode?, ghost i: nat)
      requires Valid()
      ensures i <= |nodes| && s == NodeAt(i) && p == NodeBefore(i)
      ensures forall j :: 0 <= j < i ==> CompareU32(contents[j].seqNo, seqNo) < 0
      ensures s != null ==> CompareU32(contents[i].seqNo, seqNo) >= 0
    {
      hide CompareU32;
      p, s, i := null, forward, 0;
      while s != null && CompareU32(s.segment.seqNo, seqNo) < 0
        invariant 0 <= i <= |nodes| && s == NodeAt(i) && p == NodeBefore(i)
        invariant forall j :: 0 <= j < i ==> CompareU32(contents[j].seqNo, seqNo) < 0
        decreases |nodes| - i
      {
        p, s := s, s.next;
        i := i + 1;
      }
    }

    /** Gives the node s at position i the data of a longer segment. */
    method Lengthen(s: SegmentNode, data: seq<byte>, ghost i: nat)
      requires Valid() && i < |nodes| && s == nodes[i]
      modifies this`contents, s`segment
      ensures Valid() && contents == old(contents)[i := old(contents)[i].(data := data)]
    {
      s.segment := s.segment.(data := data);
      contents := contents[i := s.segment];
    }

    /** The walk and splice of `queue_tcp`. */
    method QueueSegment(n: Segment)
      requires Valid()
      modifies this, nodes
      ensures Valid() && contents == Spec.Insert(old(contents), n)
      ensures forall k :: 0 <= k < |nodes| ==> nodes[k] in old(nodes) || fresh(nodes[k])
    {
      hide CompareU32, Spec.Insert;
      var p, s, i := Seek(n.seqNo);
      ghost var k := TcpStream.InsertShape(contents, n);
      assert k == i;
      if s == null || CompareU32(s.segment.seqNo, n.seqNo) > 0 {
        if p == null {
          LinkFront(n);
        } else {
          LinkBehind(p, n, i - 1);
        }
      } else if s.segment.Len() < n.Len() {
        Lengthen(s, n.data, i);
      }
    }

    /** Counts bytes of the head as sent, and unlinks it when all are. */
    method HeadSent(sent: nat)
      requires Valid() && contents != [] && contents[0].sent + sent <= contents[0].Len()
      modifies this, nodes
      ensures Valid()
      ensures var g := old(contents)[0].(sent := old(contents)[0].sent + sent);
              contents == (if g.sent == g.Len() then [] else [g]) + old(contents)[1..]
      ensures forall k :: 0 <= k < |nodes| ==> nodes[k] in old(nodes)
    {
      forward.segment := forward.segment.(sent := forward.segment.sent + sent);
      contents := contents[0 := forward.segment];
      if forward.segment.Len() == forward.segment.sent {
        forward := forward.next;
        nodes, contents := nodes[1..], contents[1..];
      }
    }
  }

  lemma Spliced<T>(s: seq<T>, x: T, i: nat)
    requires i <= |s|
    ensures var r := s[..i] + [x] + s[i..];
            && |r| == |s| + 1
            && forall k :: 0 <= k < |r| ==> r[k] == if k < i then s[k] else if k == i then x else s[k - 1]
  {
  }
}
