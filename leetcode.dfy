/**
 * The practice solutions: two-sum with a dictionary of the values seen
 * so far, adding two numbers held as little-endian digit lists, and
 * building and reading back a singly-linked list.
 *
 * A linked list is described by the sequence of its nodes and the
 * sequence of their values (`ListOf`); the algorithms that build new
 * lists are specified by the digit list or value list they produce, and
 * the arithmetic meaning of a digit list is stated by lemmas.
 */
module LeetCode {
  import opened Base

  // ---------------------------------------------------------------------
  // `twosum`

  /** Some earlier element completes `nums[i]` to `target`. */
  predicate PairEndsAt(nums: seq<int>, target: int, i: nat)
    requires i < |nums|
  {
    exists j :: 0 <= j < i && nums[j] + nums[i] == target
  }

  /** No two elements before position `i` add up to `target`. */
  ghost predicate NoPairBefore(nums: seq<int>, target: int, i: nat)
    requires i <= |nums|
  {
    forall i', j :: 0 <= j < i' < i ==> nums[j] + nums[i'] != target
  }

  /**
   * The dictionary after the first `i` elements: it holds every value seen,
   * each mapped to the last index where it was seen.
   */
  ghost predicate Indexed(nums: seq<int>, seen: map<int, nat>, i: nat)
    requires i <= |nums|
  {
    && (forall k :: 0 <= k < i ==> nums[k] in seen)
    && (forall v :: v in seen ==> seen[v] < i && nums[seen[v]] == v)
    && (forall v, k :: v in seen && seen[v] < k < i ==> nums[k] != v)
  }

  /** Recording element `i` under its value keeps the dictionary right for one element more. */
  lemma IndexedStep(nums: seq<int>, seen: map<int, nat>, i: nat)
    requires i < |nums| && Indexed(nums, seen, i)
    ensures Indexed(nums, seen[nums[i] := i], i + 1)
  {
    var seen' := seen[nums[i] := i];
    forall v, k | v in seen' && seen'[v] < k < i + 1
      ensures nums[k] != v
    {
      if v != nums[i] {
        assert seen'[v] == seen[v];
      }
    }
  }

  /** When the complement of element `i` was never seen, element `i` ends no pair either. */
  lemma NoPairStep(nums: seq<int>, target: int, seen: map<int, nat>, i: nat)
    requires i < |nums| && Indexed(nums, seen, i) && NoPairBefore(nums, target, i)
    requires target - nums[i] !in seen
    ensures NoPairBefore(nums, target, i + 1)
  {
    forall j | 0 <= j < i
      ensures nums[j] + nums[i] != target
    {
      assert nums[j] in seen;
    }
  }

  /** When the complement of element `i` was seen, its last index and `i` are the answer. */
  lemma FoundPair(nums: seq<int>, target: int, seen: map<int, nat>, i: nat)
    requires i < |nums| && Indexed(nums, seen, i) && NoPairBefore(nums, target, i)
    requires target - nums[i] in seen
    ensures seen[target - nums[i]] < i && nums[seen[target - nums[i]]] + nums[i] == target
    ensures forall i' :: 0 <= i' < i ==> !PairEndsAt(nums, target, i')
    ensures forall j :: seen[target - nums[i]] < j < i ==> nums[j] + nums[i] != target
  {
    forall i' | 0 <= i' < i
      ensures !PairEndsAt(nums, target, i')
    {
    }
  }

  /**
   * `twosum`: the dictionary maps every value seen so far to the last index
   * where it was seen.  The answer is `[j, i]` for the first `i` that some
   * earlier element completes, with `j` the latest such element; `[]`
   * when no two elements add up to `target`.
   */
  method TwoSum(nums: seq<int>, target: int) returns (r: seq<int>)
    ensures r == [] <==> forall i, j :: 0 <= j < i < |nums| ==> nums[j] + nums[i] != target
    ensures r != [] ==> (|r| == 2 && 0 <= r[0] < r[1] < |nums| && nums[r[0]] + nums[r[1]] == target)
    ensures r != [] ==> forall i :: 0 <= i < r[1] ==> !PairEndsAt(nums, target, i)
    ensures r != [] ==> forall j :: r[0] < j < r[1] ==> nums[j] + nums[r[1]] != target
  {
    var hashmap: map<int, nat> := map[];
    for i := 0 to |nums|
      invariant Indexed(nums, hashmap, i) && NoPairBefore(nums, target, i)
    {
      var complement := target - nums[i];
      if complement in hashmap {
        FoundPair(nums, target, hashmap, i);
        return [hashmap[complement], i];
      }
      NoPairStep(nums, target, hashmap, i);
      IndexedStep(nums, hashmap, i);
      hashmap := hashmap[nums[i] := i];
    }
    r := [];
  }

  // ---------------------------------------------------------------------
  // Linked lists

  class ListNode {
    var val: int
    var next: ListNode?

    constructor(val: int, next: ListNode?)
      ensures this.val == val && this.next == next
    {
      this.val := val;
      this.next := next;
    }
  }

  /** `head` starts a list whose nodes are `nodes`, in order, holding `vals`. */
  ghost predicate ListOf(head: ListNode?, nodes: seq<ListNode>, vals: seq<int>)
    reads set k | 0 <= k < |nodes| :: nodes[k]
  {
    && |nodes| == |vals|
    && (if nodes == [] then head == null else head == nodes[0])
    && (forall k :: 0 <= k < |nodes| ==> nodes[k].val == vals[k])
    && (forall k {:trigger nodes[k].next} :: 0 <= k < |nodes| ==> nodes[k].next == Succ(nodes, k))
  }

  /** The node after node `k`, `None` after the last. */
  function Succ(nodes: seq<ListNode>, k: nat): ListNode?
  {
    if k + 1 < |nodes| then nodes[k + 1] else null
  }

  /** The nodes are pairwise different objects. */
  ghost predicate Distinct(nodes: seq<ListNode>)
  {
    forall j, k :: 0 <= j < k < |nodes| ==> nodes[j] != nodes[k]
  }

  /** The nodes after the first describe the rest of the list. */
  lemma ListTail(head: ListNode?, nodes: seq<ListNode>, vals: seq<int>)
    requires ListOf(head, nodes, vals) && nodes != []
    ensures ListOf(nodes[0].next, nodes[1..], vals[1..])
  {
    var rest := nodes[1..];
    if rest == [] {
      assert nodes[0].next == null;
    } else {
      assert nodes[0].next == rest[0];
    }
    forall k | 0 <= k < |rest|
      ensures rest[k].next == Succ(rest, k)
    {
      assert rest[k] == nodes[k + 1];
      assert nodes[k + 1].next == Succ(nodes, k + 1);
    }
  }

  /** Every node of `nodes` was allocated since the start of the calling method. */
  twostate predicate AllFresh(new nodes: seq<ListNode>)
  {
    forall k :: 0 <= k < |nodes| ==> fresh(nodes[k])
  }

  twostate lemma AllFreshSnoc(new nodes: seq<ListNode>, new node: ListNode)
    requires AllFresh(nodes) && fresh(node)
    ensures AllFresh(nodes + [node])
  {
    forall k | 0 <= k < |nodes + [node]|
      ensures fresh((nodes + [node])[k])
    {
      if k < |nodes| {
        assert (nodes + [node])[k] == nodes[k];
      }
    }
  }

  /** `createLinkedList`: `None` for an empty list, else one new node per element, in order. */
  method CreateLinkedList(arr: seq<int>) returns (head: ListNode?, ghost nodes: seq<ListNode>)
    ensures head == null <==> arr == []
    ensures ListOf(head, nodes, arr) && Distinct(nodes)
    ensures forall k :: 0 <= k < |nodes| ==> fresh(nodes[k])
  {
    if arr == [] {
      return null, [];
    }
    head := new ListNode(arr[0], null);
    var cur := head;
    nodes := [head];
    for i := 1 to |arr|
      invariant |nodes| == i && nodes[0] == head && cur == nodes[i - 1]
      invariant ListOf(head, nodes, arr[..i]) && Distinct(nodes)
      invariant AllFresh(nodes)
    {
      assert arr[..i] + [arr[i]] == arr[..i + 1];
      ghost var before := nodes;
      cur, nodes := Append(cur, arr[i], nodes, arr[..i]);
      AllFreshSnoc(before, cur);
    }
    assert arr[..|arr|] == arr;
  }

  /** `printLinkedList` without the printing: the values met walking from `head`. */
  method ListValues(head: ListNode?, ghost nodes: seq<ListNode>, ghost vals: seq<int>) returns (res: seq<int>)
    requires ListOf(head, nodes, vals)
    ensures res == vals
  {
    res := [];
    var p := head;
    ghost var k := 0;
    while p != null
      invariant 0 <= k <= |nodes| && res == vals[..k]
      invariant p == (if k < |nodes| then nodes[k] else null)
      decreases |nodes| - k
    {
      res := res + [p.val];
      p := p.next;
      k := k + 1;
    }
    assert vals[..|vals|] == vals;
  }

  /** A list built from `arr` reads back as `arr`. */
  method RoundTrip(arr: seq<int>) returns (res: seq<int>)
    ensures res == arr
  {
    var head, nodes := CreateLinkedList(arr);
    res := ListValues(head, nodes, arr);
  }

  // ---------------------------------------------------------------------
  // `addTwoNumbers`

  predicate AllDigits(ds: seq<int>)
  {
    forall k :: 0 <= k < |ds| ==> 0 <= ds[k] <= 9
  }

  /** The number a little-endian digit list stands for. */
  function Value(ds: seq<int>): int
  {
    if ds == [] then 0 else ds[0] + 10 * Value(ds[1..])
  }

  function Head(ds: seq<nat>): nat
  {
    if ds == [] then 0 else ds[0]
  }

  function Tail(ds: seq<nat>): seq<nat>
  {
    if ds == [] then [] else ds[1..]
  }

  function Max(a: nat, b: nat): nat
  {
    if a < b then b else a
  }

  /** The digits the loop of `addTwoNumbers` produces from the digits still to read and the carry. */
  function AddDigits(a: seq<nat>, b: seq<nat>, carry: nat): seq<int>
    decreases |a| + |b|, carry
  {
    if a == [] && b == [] && carry == 0 then []
    else
      var total := Head(a) + Head(b) + carry;
      [total % 10] + AddDigits(Tail(a), Tail(b), total / 10)
  }

  /** One unfolding of `AddDigits`: while anything is left, the next digit is the last digit of the column sum. */
  lemma AddCons(a: seq<nat>, b: seq<nat>, carry: nat)
    requires !(a == [] && b == [] && carry == 0)
    ensures AddDigits(a, b, carry)
      == [(Head(a) + Head(b) + carry) % 10] + AddDigits(Tail(a), Tail(b), (Head(a) + Head(b) + carry) / 10)
  {
  }

  /** The digits produced stand for the sum of the two numbers and the carry. */
  lemma {:induction false} AddValue(a: seq<nat>, b: seq<nat>, carry: nat)
    ensures Value(AddDigits(a, b, carry)) == Value(a) + Value(b) + carry
    decreases |a| + |b|, carry
  {
    if !(a == [] && b == [] && carry == 0) {
      var total := Head(a) + Head(b) + carry;
      AddCons(a, b, carry);
      var rest := AddDigits(Tail(a), Tail(b), total / 10);
      AddValue(Tail(a), Tail(b), total / 10);
      assert Value(a) == Head(a) + 10 * Value(Tail(a));
      assert Value(b) == Head(b) + 10 * Value(Tail(b));
      var r := [total % 10] + rest;
      assert r[1..] == rest;
      assert Value(r) == total % 10 + 10 * Value(rest);
    }
  }

  /** Every digit produced is a decimal digit. */
  lemma {:induction false} AddProducesDigits(a: seq<nat>, b: seq<nat>, carry: nat)
    ensures AllDigits(AddDigits(a, b, carry))
    decreases |a| + |b|, carry
  {
    if !(a == [] && b == [] && carry == 0) {
      var total := Head(a) + Head(b) + carry;
      var rest := AddDigits(Tail(a), Tail(b), total / 10);
      var r := AddDigits(a, b, carry);
      assert r == [total % 10] + rest by {
        AddCons(a, b, carry);
      }
      AddProducesDigits(Tail(a), Tail(b), total / 10);
      forall k | 0 <= k < |r|
        ensures 0 <= r[k] <= 9
      {
        if k > 0 {
          assert r[k] == rest[k - 1];
        }
      }
    }
  }

  /** With decimal digits and a carry of at most one, the sum is as long as the longer list, or one digit longer. */
  lemma {:induction false} AddLength(a: seq<nat>, b: seq<nat>, carry: nat)
    requires AllDigits(a) && AllDigits(b) && 0 <= carry <= 1
    ensures |AddDigits(a, b, carry)| == Max(|a|, |b|) || |AddDigits(a, b, carry)| == Max(|a|, |b|) + 1
    ensures carry == 0 ==> |AddDigits(a, b, carry)| >= Max(|a|, |b|)
    decreases |a| + |b|, carry
  {
    if !(a == [] && b == [] && carry == 0) {
      var total := Head(a) + Head(b) + carry;
      AddCons(a, b, carry);
      assert AllDigits(Tail(a)) && AllDigits(Tail(b));
      assert 0 <= total <= 19;
      AddLength(Tail(a), Tail(b), total / 10);
      assert |Tail(a)| == (if a == [] then 0 else |a| - 1);
      assert |Tail(b)| == (if b == [] then 0 else |b| - 1);
    }
  }

  /** The last column of the example: 3 + 4 + 1 gives 8 and no carry. */
  lemma AddExampleLast()
    ensures AddDigits([3], [4], 1) == [8]
  {
    AddCons([3], [4], 1);
    assert Tail([3]) == [] && Tail([4]) == [];
  }

  /** The last two columns: 4 + 6 gives 0 carrying 1, then 8. */
  lemma AddExampleTail()
    ensures AddDigits([4, 3], [6, 4], 0) == [0, 8]
  {
    AddCons([4, 3], [6, 4], 0);
    assert Tail([4, 3]) == [3] && Tail([6, 4]) == [4];
    AddExampleLast();
  }

  /** The example of the script: 342 + 465 = 807, held as [2, 4, 3] and [5, 6, 4], gives [7, 0, 8]. */
  lemma AddExample()
    ensures AddDigits([2, 4, 3], [5, 6, 4], 0) == [7, 0, 8]
    ensures Value([7, 0, 8]) == Value([2, 4, 3]) + Value([5, 6, 4])
  {
    var a, b := [2, 4, 3], [5, 6, 4];
    AddCons(a, b, 0);
    assert Tail(a) == [4, 3] && Tail(b) == [6, 4];
    AddExampleTail();
    AddValue(a, b, 0);
  }

  lemma TailSlice(a: seq<nat>, i: nat)
    requires i <= |a|
    ensures Tail(a[i..]) == a[(if i < |a| then i + 1 else i)..]
  {
  }

  /**
   * One step of the loop: from position `i1`, `i2` with `carry` and the
   * digits so far, the step writes one digit and moves on to `j1`, `j2`
   * with `carry'`, and what is still to come shrinks by that digit.
   */
  lemma AddStep(a: seq<nat>, b: seq<nat>, i1: nat, i2: nat, carry: nat, digits: seq<int>, goal: seq<int>,
                j1: nat, j2: nat, carry': nat, digits': seq<int>)
    requires i1 <= |a| && i2 <= |b|
    requires !(i1 == |a| && i2 == |b| && carry == 0)
    requires digits + AddDigits(a[i1..], b[i2..], carry) == goal
    requires j1 == (if i1 < |a| then i1 + 1 else i1) && j2 == (if i2 < |b| then i2 + 1 else i2)
    requires carry' == (Head(a[i1..]) + Head(b[i2..]) + carry) / 10
    requires digits' == digits + [(Head(a[i1..]) + Head(b[i2..]) + carry) % 10]
    ensures digits' + AddDigits(a[j1..], b[j2..], carry') == goal
  {
    var total := Head(a[i1..]) + Head(b[i2..]) + carry;
    var rest := AddDigits(a[j1..], b[j2..], carry');
    assert AddDigits(a[i1..], b[i2..], carry) == [total % 10] + rest by {
      TailSlice(a, i1);
      TailSlice(b, i2);
      AddCons(a[i1..], b[i2..], carry);
    }
    calc {
      digits' + rest;
      (digits + [total % 10]) + rest;
      { Assoc(digits, [total % 10], rest); }
      digits + ([total % 10] + rest);
      goal;
    }
  }

  /** Hangs a new node holding `d` behind `curr`, the last node of the list `all`. */
  method Append(curr: ListNode, d: int, ghost all: seq<ListNode>, ghost vals: seq<int>)
    returns (node: ListNode, ghost all': seq<ListNode>)
    requires all != [] && curr == all[|all| - 1] && ListOf(all[0], all, vals) && Distinct(all)
    modifies curr
    ensures fresh(node) && all' == all + [node] && node == all'[|all'| - 1]
    ensures ListOf(all[0], all', vals + [d]) && Distinct(all')
  {
    node := new ListNode(d, null);
    curr.next := node;
    all' := all + [node];
    forall k | 0 <= k < |all'|
      ensures all'[k].next == Succ(all', k)
    {
      if k < |all| - 1 {
        assert all[k].next == Succ(all, k);
      }
    }
  }

  /** A walk along `nodes` stands at node `i`, or past the end when `i == |nodes|`. */
  ghost predicate At(p: ListNode?, nodes: seq<ListNode>, i: nat)
  {
    i <= |nodes| && p == (if i < |nodes| then nodes[i] else null)
  }

  /** Behind `digits`, the digits still to come from positions `i1`, `i2` with `carry` complete `goal`. */
  ghost predicate Pending(a: seq<nat>, b: seq<nat>, i1: nat, i2: nat, carry: nat, digits: seq<int>, goal: seq<int>)
  {
    && i1 <= |a| && i2 <= |b|
    && digits + AddDigits(a[i1..], b[i2..], carry) == goal
  }

  /** The list built so far: `dummy`, then one node per digit of `digits`, ending at `curr`. */
  ghost predicate Built(dummy: ListNode, curr: ListNode, all: seq<ListNode>, digits: seq<int>)
    reads set k | 0 <= k < |all| :: all[k]
  {
    && |all| == |digits| + 1 && all[0] == dummy && curr == all[|all| - 1]
    && ListOf(dummy, all, [0] + digits) && Distinct(all)
  }

  /**
   * The state of the loop of `addTwoNumbers`: both input lists intact, each
   * walk at its position, the list built so far, and what is still to come.
   */
  ghost predicate Adding(l1: ListNode?, n1: seq<ListNode>, a: seq<nat>, p1: ListNode?, i1: nat,
                         l2: ListNode?, n2: seq<ListNode>, b: seq<nat>, p2: ListNode?, i2: nat,
                         dummy: ListNode, curr: ListNode, all: seq<ListNode>, digits: seq<int>,
                         carry: nat, goal: seq<int>)
    reads (set k | 0 <= k < |n1| :: n1[k]), (set k | 0 <= k < |n2| :: n2[k]), (set k | 0 <= k < |all| :: all[k])
  {
    && ListOf(l1, n1, a) && ListOf(l2, n2, b)
    && At(p1, n1, i1) && At(p2, n2, i2)
    && Built(dummy, curr, all, digits)
    && Pending(a, b, i1, i2, carry, digits, goal)
  }

  /** Hangs a node holding the digit `d` at the end of the list built so far. */
  method AppendDigit(curr: ListNode, d: int, ghost dummy: ListNode, ghost all: seq<ListNode>, ghost digits: seq<int>)
    returns (node: ListNode, ghost all': seq<ListNode>)
    requires Built(dummy, curr, all, digits)
    modifies curr
    ensures fresh(node) && all' == all + [node] && Built(dummy, node, all', digits + [d])
  {
    Assoc([0], digits, [d]);
    node, all' := Append(curr, d, all, [0] + digits);
  }

  /** No node of `nodes` belongs to either input list. */
  ghost predicate Apart(nodes: seq<ListNode>, n1: seq<ListNode>, n2: seq<ListNode>)
  {
    forall k :: 0 <= k < |nodes| ==> nodes[k] !in n1 && nodes[k] !in n2
  }

  lemma ApartSnoc(nodes: seq<ListNode>, node: ListNode, n1: seq<ListNode>, n2: seq<ListNode>)
    requires Apart(nodes, n1, n2) && node !in n1 && node !in n2
    ensures Apart(nodes + [node], n1, n2)
  {
    forall k | 0 <= k < |nodes + [node]|
      ensures (nodes + [node])[k] !in n1 && (nodes + [node])[k] !in n2
    {
      if k < |nodes| {
        assert (nodes + [node])[k] == nodes[k];
      }
    }
  }

  /** The digit a walk stands at, 0 past the end, and the walk one node on unless it has ended. */
  method ReadDigit(p: ListNode?, ghost l: ListNode?, ghost nodes: seq<ListNode>, ghost vals: seq<nat>, ghost i: nat)
    returns (val: int, q: ListNode?, ghost j: nat)
    requires ListOf(l, nodes, vals) && At(p, nodes, i)
    ensures val == Head(vals[i..]) && At(q, nodes, j)
    ensures j == if i < |vals| then i + 1 else i
  {
    val := if p != null then p.val else 0;
    q := if p != null then p.next else null;
    j := if p != null then i + 1 else i;
    if p != null {
      assert p.next == Succ(nodes, i);
    }
  }

  /**
   * One pass of the loop of `addTwoNumbers`: reads the current digit of
   * each list (0 past the end), hangs a node with the sum's last decimal
   * digit behind `curr`, and steps each list that has not ended.
   */
  method AddNode(curr: ListNode, p1: ListNode?, p2: ListNode?, carry: nat,
                 ghost l1: ListNode?, ghost n1: seq<ListNode>, ghost a: seq<nat>, ghost i1: nat,
                 ghost l2: ListNode?, ghost n2: seq<ListNode>, ghost b: seq<nat>, ghost i2: nat,
                 ghost dummy: ListNode, ghost all: seq<ListNode>, ghost digits: seq<int>, ghost goal: seq<int>)
    returns (node: ListNode, q1: ListNode?, q2: ListNode?, carry': nat,
             ghost j1: nat, ghost j2: nat, ghost all': seq<ListNode>, ghost digits': seq<int>)
    requires p1 != null || p2 != null || carry != 0
    requires Apart(all, n1, n2)
    requires Adding(l1, n1, a, p1, i1, l2, n2, b, p2, i2, dummy, curr, all, digits, carry, goal)
    modifies curr
    ensures fresh(node) && all' == all + [node] && Apart(all', n1, n2)
    ensures Adding(l1, n1, a, q1, j1, l2, n2, b, q2, j2, dummy, node, all', digits', carry', goal)
    ensures |n1| - j1 + |n2| - j2 < |n1| - i1 + |n2| - i2 || (j1 == i1 && j2 == i2 && 0 <= carry' < carry)
  {
    var val1, val2;
    val1, q1, j1 := ReadDigit(p1, l1, n1, a, i1);
    val2, q2, j2 := ReadDigit(p2, l2, n2, b, i2);
    var total := val1 + val2 + carry;
    carry' := total / 10;
    digits' := digits + [total % 10];
    AddStep(a, b, i1, i2, carry, digits, goal, j1, j2, carry', digits');
    node, all' := AppendDigit(curr, total % 10, dummy, all, digits);
    ApartSnoc(all, node, n1, n2);
  }

  /** Before the first pass: both walks at the heads, only the dummy built, the whole sum to come. */
  lemma AddingStart(l1: ListNode?, n1: seq<ListNode>, a: seq<nat>, l2: ListNode?, n2: seq<ListNode>, b: seq<nat>,
                    dummy: ListNode)
    requires ListOf(l1, n1, a) && ListOf(l2, n2, b) && dummy.val == 0 && dummy.next == null
    ensures Adding(l1, n1, a, l1, 0, l2, n2, b, l2, 0, dummy, dummy, [dummy], [], 0, AddDigits(a, b, 0))
  {
    assert a[0..] == a && b[0..] == b;
  }

  /** After the last pass: the nodes behind the dummy hold the whole sum and share no node with the inputs. */
  lemma AddingDone(l1: ListNode?, n1: seq<ListNode>, a: seq<nat>, p1: ListNode?, i1: nat,
                   l2: ListNode?, n2: seq<ListNode>, b: seq<nat>, p2: ListNode?, i2: nat,
                   dummy: ListNode, curr: ListNode, all: seq<ListNode>, digits: seq<int>, goal: seq<int>)
    requires Adding(l1, n1, a, p1, i1, l2, n2, b, p2, i2, dummy, curr, all, digits, 0, goal)
    requires p1 == null && p2 == null && Apart(all, n1, n2)
    ensures ListOf(dummy.next, all[1..], goal) && Apart(all[1..], n1, n2)
  {
    PendingDone(a, b, i1, i2, digits, goal);
    BuiltTail(dummy, curr, all, digits);
    ApartTail(all, n1, n2);
  }

  lemma PendingDone(a: seq<nat>, b: seq<nat>, i1: nat, i2: nat, digits: seq<int>, goal: seq<int>)
    requires Pending(a, b, i1, i2, 0, digits, goal) && i1 == |a| && i2 == |b|
    ensures digits == goal
  {
    assert a[i1..] == [] && b[i2..] == [];
    assert AddDigits([], [], 0) == [];
  }

  lemma BuiltTail(dummy: ListNode, curr: ListNode, all: seq<ListNode>, digits: seq<int>)
    requires Built(dummy, curr, all, digits)
    ensures ListOf(dummy.next, all[1..], digits)
  {
    ListTail(dummy, all, [0] + digits);
    assert ([0] + digits)[1..] == digits;
  }

  lemma ApartTail(nodes: seq<ListNode>, n1: seq<ListNode>, n2: seq<ListNode>)
    requires Apart(nodes, n1, n2) && nodes != []
    ensures Apart(nodes[1..], n1, n2)
  {
    forall k | 0 <= k < |nodes| - 1
      ensures nodes[1..][k] !in n1 && nodes[1..][k] !in n2
    {
      assert nodes[1..][k] == nodes[k + 1];
    }
  }

  /**
   * `addTwoNumbers`: walks both lists and a carry, appending one new node
   * per step behind a dummy head; the input lists are only read.
   */
  method AddTwoNumbers(l1: ListNode?, l2: ListNode?,
                       ghost n1: seq<ListNode>, ghost a: seq<nat>, ghost n2: seq<ListNode>, ghost b: seq<nat>)
    returns (r: ListNode?, ghost out: seq<ListNode>)
    requires ListOf(l1, n1, a) && ListOf(l2, n2, b)
    ensures ListOf(r, out, AddDigits(a, b, 0))
    ensures ListOf(l1, n1, a) && ListOf(l2, n2, b)
    ensures Apart(out, n1, n2)
  {
    var dummy := new ListNode(0, null);
    var curr := dummy;
    var carry: nat := 0;
    var p1, p2 := l1, l2;
    ghost var i1, i2 := 0, 0;
    ghost var all := [dummy];
    ghost var digits: seq<int> := [];
    ghost var goal := AddDigits(a, b, 0);
    AddingStart(l1, n1, a, l2, n2, b, dummy);
    while p1 != null || p2 != null || carry != 0
      invariant Adding(l1, n1, a, p1, i1, l2, n2, b, p2, i2, dummy, curr, all, digits, carry, goal)
      invariant fresh(curr) && Apart(all, n1, n2)
      decreases |n1| - i1 + |n2| - i2, carry
    {
      curr, p1, p2, carry, i1, i2, all, digits :=
        AddNode(curr, p1, p2, carry, l1, n1, a, i1, l2, n2, b, i2, dummy, all, digits, goal);
    }
    AddingDone(l1, n1, a, p1, i1, l2, n2, b, p2, i2, dummy, curr, all, digits, goal);
    r, out := dummy.next, all[1..];
  }
}
