/** Address lists passed between two C libraries that order two of their fields differently. */
module AddrInfo {
  type Ptr = nat

  /** The fields of one entry; everything that both libraries agree on is in `rest`. */
  datatype Info = Info(rest: int, canonname: Ptr, addr: Ptr)

  function Exchanged(i: Info): Info {
    Info(i.rest, i.addr, i.canonname)
  }

  function AllExchanged(s: seq<Info>): (r: seq<Info>)
    ensures |r| == |s|
  {
    seq(|s|, k requires 0 <= k < |s| => Exchanged(s[k]))
  }

  function HeadExchanged(s: seq<Info>): (r: seq<Info>)
    ensures |r| == |s|
  {
    if s == [] then s else s[0 := Exchanged(s[0])]
  }

  // ---- Lists in memory -------------------------------------------------------------------

  class Node {
    var rest: int
    var canonname: Ptr
    var addr: Ptr
    var next: Node?

    constructor (rest: int, canonname: Ptr, addr: Ptr, next: Node?)
      ensures this.rest == rest && this.canonname == canonname && this.addr == addr && this.next == next
    {
      this.rest, this.canonname, this.addr, this.next := rest, canonname, addr, next;
    }

    function Read(): Info
      reads this
    {
      Info(rest, canonname, addr)
    }

    /** swap of the two fields. */
    method Swap()
      modifies this`canonname, this`addr
      ensures canonname == old(addr) && addr == old(canonname)
      ensures Read() == Exchanged(old(Read()))
    {
      var tmp := canonname;
      canonname := addr;
      addr := tmp;
    }
  }

  /** The list that starts at `head` is these nodes, none of them twice. */
  ghost predicate Chain(head: Node?, nodes: seq<Node>)
    reads nodes
  {
    && (forall i, j | 0 <= i < j < |nodes| :: nodes[i] != nodes[j])
    && (head == null <==> nodes == []) && (nodes != [] ==> head == nodes[0])
    && (forall i | 0 <= i < |nodes| :: nodes[i].next == if i + 1 < |nodes| then nodes[i + 1] else null)
  }

  ghost function Infos(nodes: seq<Node>): (r: seq<Info>)
    reads nodes
    ensures |r| == |nodes|
  {
    seq(|nodes|, i requires 0 <= i < |nodes| reads nodes => nodes[i].Read())
  }

  /** The walk of my_getaddrinfo over a list. */
  method SwapAll(head: Node?, ghost nodes: seq<Node>)
    requires Chain(head, nodes)
    modifies nodes
    ensures Chain(head, nodes) && Infos(nodes) == AllExchanged(old(Infos(nodes)))
  {
    ghost var was := Infos(nodes);
    ghost var i := 0;
    var it := head;
    while it != null
      invariant Chain(head, nodes) && i <= |nodes|
      invariant it == if i < |nodes| then nodes[i] else null
      invariant forall k | 0 <= k < |nodes| ::
                  nodes[k].Read() == if k < i then Exchanged(was[k]) else was[k]
      decreases |nodes| - i
    {
      it.Swap();
      it := it.next;
      i := i + 1;
    }
  }

  /** What glibc's getaddrinfo answers: a code, and a new list if the code is 0. */
  datatype Answer = Answer(code: int, list: Node?)

  /** The caller's `*res`, which need not hold anything before the call. */
  datatype Slot = Unset | Holds(list: Node?)

  /** glibc writes `*res` only on success. */
  function After(res: Slot, answer: Answer): Slot {
    if answer.code == 0 then Holds(answer.list) else res
  }

  /** `seen` is what glibc was shown. The hints are copied from without a look, so a caller that passes
      none faults before anything else happens, where getaddrinfo would take it; and `*res` is walked
      after a failure too, whatever the caller left in it. */
  method GetAddrInfo(hints: Node?, res: Slot, answer: Answer, ghost nodes: seq<Node>)
    returns (fault: bool, code: int, result: Node?, seen: Info)
    requires After(res, answer).Holds? ==> Chain(After(res, answer).list, nodes)
    requires hints == null || hints !in nodes
    modifies nodes
    ensures fault <==> hints == null || (answer.code != 0 && res == Unset)
    ensures fault ==> Infos(nodes) == old(Infos(nodes))
    ensures hints != null ==> hints.Read() == old(hints.Read()) && seen == Exchanged(old(hints.Read()))
    ensures !fault ==>
              && code == answer.code && Holds(result) == After(res, answer)
              && Chain(result, nodes) && Infos(nodes) == AllExchanged(old(Infos(nodes)))
  {
    fault, code, result, seen := true, 0, null, Info(0, 0, 0);
    if hints == null {
      return;
    }
    var fixedHints := new Node(hints.rest, hints.canonname, hints.addr, hints.next);
    fixedHints.Swap();
    seen := fixedHints.Read();
    code := answer.code;
    match After(res, answer) {
      case Unset =>
      case Holds(it) =>
        SwapAll(it, nodes);
        fault, result := false, it;
    }
  }

  /** my_freeaddrinfo up to the call of glibc. Its exchange does not ask whether there is a list. */
  method FreeAddrInfo(head: Node?, ghost nodes: seq<Node>) returns (fault: bool)
    requires Chain(head, nodes)
    modifies head
    ensures fault <==> head == null
    ensures Chain(head, nodes) && Infos(nodes) == HeadExchanged(old(Infos(nodes)))
  {
    if head == null {
      return true;
    }
    fault := false;
    ghost var was := Infos(nodes);
    assert head == nodes[0];
    head.Swap();
    assert Chain(head, nodes);
    ghost var now := Infos(nodes);
    assert forall k | 0 < k < |nodes| :: now[k] == nodes[k].Read() == was[k];
    assert now[0] == nodes[0].Read() == Exchanged(was[0]);
    assert now == HeadExchanged(was);
  }

  // ---- What the two libraries read -------------------------------------------------------

  /** glibc gets back the list it made exactly when every entry after the first reads the same
      either way. */
  lemma FreeUndoesIff(s: seq<Info>)
    ensures HeadExchanged(AllExchanged(s)) == s <==> forall k | 0 < k < |s| :: s[k].canonname == s[k].addr
  {
    var t := HeadExchanged(AllExchanged(s));
    if forall k | 0 < k < |s| :: s[k].canonname == s[k].addr {
      assert forall k | 0 <= k < |s| :: t[k] == s[k];
    } else {
      var k :| 0 < k < |s| && s[k].canonname != s[k].addr;
      assert t[k] == Exchanged(s[k]) != s[k];
    }
  }

  /** Getting a list of two addresses and freeing it: the second entry reaches glibc with its
      address where the name belongs. */
  method GetAndFree(hints: Node, first: Node, second: Node)
    requires first != second && hints !in [first, second] && first.next == second && second.next == null
    modifies first, second
    ensures first.Read() == old(first.Read())
    ensures second.canonname == old(second.addr) && second.addr == old(second.canonname)
    ensures second.rest == old(second.rest)
  {
    ghost var nodes := [first, second];
    ghost var was := Infos(nodes);
    assert was == [first.Read(), second.Read()];
    var fault, code, result, seen := GetAddrInfo(hints, Unset, Answer(0, first), nodes);
    fault := FreeAddrInfo(first, nodes);
    assert Infos(nodes)[0] == first.Read() && Infos(nodes)[1] == second.Read();
  }
}
