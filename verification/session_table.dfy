/** The global list `ng_session`, linked through its nodes and unlinked in place. */
module SessionTable {
  import opened TcpTypes
  import opened Sessions

  class Node {
    var session: Session
    var next: Node?

    constructor (session: Session, next: Node?)
      ensures this.session == session && this.next == next
    {
      this.session, this.next := session, next;
    }
  }

  class Table {
    var head: Node?
    ghost var nodes: seq<Node>
    ghost var contents: seq<Session>

    ghost predicate Valid()
      reads this, nodes
    {
      && (forall i, j :: 0 <= i < j < |nodes| ==> nodes[i] != nodes[j])
      && head == NodeAt(0) && |contents| == |nodes|
      && (forall i {:trigger nodes[i].session} :: 0 <= i < |nodes| ==> nodes[i].session == contents[i])
      && (forall i {:trigger nodes[i].next} :: 0 <= i < |nodes| ==> nodes[i].next == NodeAt(i + 1))
    }

    /** The node at position i, null past the end. */
    ghost function NodeAt(i: nat): Node?
      reads this
    {
      if i < |nodes| then nodes[i] else null
    }

    ghost function NodeBefore(i: nat): Node?
      reads this
    {
      if i == 0 then null else NodeAt(i - 1)
    }

    lemma SessionAt(i: nat)
      requires Valid()
      ensures i < |contents| <==> NodeAt(i) != null
      ensures NodeAt(i) != null ==> NodeAt(i).session == contents[i] && NodeAt(i) in nodes
    {
    }

    lemma Start()
      requires Valid()
      ensures head == NodeAt(0) && NodeBefore(0) == null
    {
    }

    /** `init`. */
    constructor ()
      ensures Valid() && contents == []
    {
      head, nodes, contents := null, [], [];
    }

    /** Registers a session at the front. */
    method Push(s: Session)
      requires Valid()
      modifies this
      ensures Valid() && contents == [s] + old(contents)
      ensures forall n :: n in nodes ==> n in old(nodes) || fresh(n)
    {
      var n := new Node(s, head);
      head := n;
      nodes, contents := [n] + nodes, [s] + contents;
    }

    /** The search of `handle_tcp`. */
    method FindTcp(key: Key) returns (n: Node?)
      requires Valid()
      ensures n == null <==> !HasTcp(contents, key)
      ensures n != null ==> n in nodes && n.session.TcpEntry? && n.session.key == key
    {
      n := head;
      ghost var i := 0;
      while n != null && !(n.session.TcpEntry? && n.session.key == key)
        invariant 0 <= i <= |nodes| && n == NodeAt(i)
        invariant forall j :: 0 <= j < i ==> !(contents[j].TcpEntry? && contents[j].key == key)
        decreases |nodes| - i
      {
        SessionAt(i);
        n := n.next;
        i := i + 1;
      }
      SessionAt(i);
    }

    /** A SYN without a session registers one at the front; its socket is already open. */
    method RegisterTcp(key: Key, t: Tcp)
      requires Valid() && TableOk(contents) && TableEnabled(contents, Arrival(key, t))
      modifies this
      ensures Valid() && contents == TableApply(old(contents), Arrival(key, t))
    {
      var n := FindTcp(key);
      if n == null {
        Push(TcpEntry(key, t));
      }
    }

    /** Unlinks the node at position i, given the node before it. */
    method Unlink(prev: Node?, cur: Node, ghost i: nat)
      requires Valid() && NodeAt(i) == cur && prev == NodeBefore(i)
      modifies this, nodes
      ensures Valid() && nodes == old(nodes)[..i] + old(nodes)[i + 1..]
      ensures contents == old(contents)[..i] + old(contents)[i + 1..]
      ensures NodeAt(i) == old(cur.next)
    {
      if prev == null {
        head := cur.next;
      } else {
        prev.next := cur.next;
      }
      nodes, contents := nodes[..i] + nodes[i + 1..], contents[..i] + contents[i + 1..];
    }

    /** Stores the updated session at position i, or unlinks its node; returns the last node
        kept and the next to visit. */
    method Settle(prev: Node?, cur: Node, s: Session, del: bool, ghost i: nat)
      returns (last: Node?, next: Node?)
      requires Valid() && NodeAt(i) == cur && prev == NodeBefore(i)
      modifies this, nodes
      ensures Valid()
      ensures contents == old(contents)[..i] + (if del then [] else [s]) + old(contents)[i + 1..]
      ensures var n := if del then i else i + 1; next == NodeAt(n) && last == NodeBefore(n)
      ensures forall j :: 0 <= j < |nodes| ==> nodes[j] in old(nodes)
    {
      cur.session := s;
      contents := contents[i := s];
      if del {
        last, next := prev, cur.next;
        Unlink(prev, cur, i);
      } else {
        last, next := cur, cur.next;
      }
    }

    /** The check loop of `handle_events`: checks every session once, unlinks those whose check
        asks for it, and returns the poll timeout. */
    method CheckSessions(p: Pass) returns (timeout: int)
      requires Valid() && p.maxSessions > 0
      modifies this, nodes
      ensures Valid()
      ensures contents == Survivors(old(contents), |old(contents)|, p)
      ensures timeout == PollTimeout(old(contents), |old(contents)|, p)
      ensures forall j :: 0 <= j < |nodes| ==> nodes[j] in old(nodes)
    {
      hide Check, Sooner, NodeAt, NodeBefore, Valid, Survivors, PollTimeout;
      timeout := EPOLL_TIMEOUT;
      var sl: Node? := null;
      var s := head;
      var k := 0;
      ghost var ss, done := contents, [];
      Start();
      PassStart(ss, p);
      while s != null
        invariant Valid() && k <= |ss|
        invariant forall j :: 0 <= j < |nodes| ==> nodes[j] in old(nodes)
        invariant done == Survivors(ss, k, p) && contents == done + ss[k..]
        invariant s == NodeAt(|done|) && sl == NodeBefore(|done|)
        invariant timeout == PollTimeout(ss, k, p)
        decreases |ss| - k
      {
        SessionAt(|done|);
        Advance(done, ss, k);
        PassNext(ss, k, p);
        var r := Check(s.session, p, k);
        timeout := Sooner(timeout, r.0, r.1, p);
        sl, s := Settle(sl, s, r.0, r.1, |done|);
        done := done + (if r.1 then [] else [r.0]);
        k := k + 1;
      }
      SessionAt(|done|);
    }

    /** `check_allowed`. */
    method CheckAllowed()
      requires Valid()
      modifies this, nodes
      ensures Valid() && contents == Allowed(old(contents), |old(contents)|)
    {
      hide Terminated, Blocked, NodeAt, NodeBefore, Valid, Allowed;
      var l: Node? := null;
      var s := head;
      ghost var ss, done, k := contents, [], 0;
      Start();
      AllowedStart(ss);
      while s != null
        invariant Valid() && k <= |ss|
        invariant forall j :: 0 <= j < |nodes| ==> nodes[j] in old(nodes)
        invariant done == Allowed(ss, k) && contents == done + ss[k..]
        invariant s == NodeAt(|done|) && l == NodeBefore(|done|)
        decreases |ss| - k
      {
        SessionAt(|done|);
        Advance(done, ss, k);
        AllowedNext(ss, k);
        var blocked := Blocked(s.session);
        l, s := Settle(l, s, Terminated(s.session), blocked, |done|);
        done := done + (if blocked then [] else [Terminated(ss[k])]);
        k := k + 1;
      }
      SessionAt(|done|);
    }

    /** The counting loop of `handle_events`. */
    method CountSessions() returns (sessions: nat)
      requires Valid()
      ensures sessions == CountLive(contents)
    {
      sessions := 0;
      var s := head;
      ghost var i := 0;
      while s != null
        invariant 0 <= i <= |nodes| && s == NodeAt(i)
        invariant sessions == CountLive(contents[..i])
        decreases |nodes| - i
      {
        CountLiveSnoc(contents, i);
        if Live(s.session) {
          sessions := sessions + 1;
        }
        s := s.next;
        i := i + 1;
      }
      assert contents[..i] == contents;
    }

    /** `clear`: walks the list and closes every open socket. */
    method Clear() returns (closed: seq<Session>)
      requires Valid()
      modifies this
      ensures Valid() && contents == []
      ensures closed == WithSocket(old(contents), |old(contents)|)
    {
      closed := [];
      var s := head;
      ghost var i := 0;
      while s != null
        invariant 0 <= i <= |nodes| && s == NodeAt(i)
        invariant Valid() && contents == old(contents) && closed == WithSocket(contents, i)
        decreases |nodes| - i
      {
        if SocketOpen(s.session) {
          closed := closed + [s.session];
        }
        s := s.next;
        i := i + 1;
      }
      head, nodes, contents := null, [], [];
    }
  }

  /** Replacing the k-th session by x moves it from the part to come to the part done. */
  lemma Advance(done: seq<Session>, ss: seq<Session>, k: nat)
    requires k <= |ss|
    ensures |done + ss[k..]| > |done| <==> k < |ss|
    ensures k < |ss| ==> (done + ss[k..])[|done|] == ss[k]
    ensures k < |ss| ==>
              forall x: seq<Session> ::
                (done + ss[k..])[..|done|] + x + (done + ss[k..])[|done| + 1..] == done + x + ss[k + 1..]
  {
    if k < |ss| {
      assert (done + ss[k..])[..|done|] == done;
      assert (done + ss[k..])[|done| + 1..] == ss[k + 1..];
    }
  }

  lemma PassStart(ss: seq<Session>, p: Pass)
    requires p.maxSessions > 0
    ensures Survivors(ss, 0, p) == [] && PollTimeout(ss, 0, p) == EPOLL_TIMEOUT
  {
  }

  lemma PassNext(ss: seq<Session>, k: nat, p: Pass)
    requires k < |ss| && p.maxSessions > 0
    ensures var r := Check(ss[k], p, k);
            && Survivors(ss, k + 1, p) == Survivors(ss, k, p) + (if r.1 then [] else [r.0])
            && PollTimeout(ss, k + 1, p) == Sooner(PollTimeout(ss, k, p), r.0, r.1, p)
  {
  }

  lemma AllowedStart(ss: seq<Session>)
    ensures Allowed(ss, 0) == []
  {
  }

  lemma AllowedNext(ss: seq<Session>, k: nat)
    requires k < |ss|
    ensures Allowed(ss, k + 1) == Allowed(ss, k) + (if Blocked(ss[k]) then [] else [Terminated(ss[k])])
  {
  }

  /** The sessions with an open socket among the first n, in order. */
  function WithSocket(ss: seq<Session>, n: nat): seq<Session>
    requires n <= |ss|
  {
    if n == 0 then [] else WithSocket(ss, n - 1) + (if SocketOpen(ss[n - 1]) then [ss[n - 1]] else [])
  }

  /** These are all of them, each once. */
  lemma {:induction false} WithSocketIsFilter(ss: seq<Session>, n: nat)
    requires n <= |ss|
    ensures multiset(WithSocket(ss, n)) <= multiset(ss[..n])
    ensures forall k :: 0 <= k < n && SocketOpen(ss[k]) ==> ss[k] in WithSocket(ss, n)
    ensures forall s :: s in WithSocket(ss, n) ==> SocketOpen(s)
  {
    if n > 0 {
      WithSocketIsFilter(ss, n - 1);
      assert ss[..n] == ss[..n - 1] + [ss[n - 1]];
    }
  }
}
