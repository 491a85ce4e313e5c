/** The console's completion matches: a linked list with a stable in-place bubble sort
    (src/switch_console.c). */
module MatchSort {
  import opened Common

  /** strcmp */
  function Cmp(a: string, b: string): int {
    if a == "" || b == "" then |a| - |b|
    else if a[0] != b[0] then a[0] as int - b[0] as int
    else Cmp(a[1..], b[1..])
  }

  lemma {:induction false} CmpSymmetric(a: string, b: string)
    ensures Cmp(a, b) == -Cmp(b, a)
    ensures Cmp(a, b) == 0 <==> a == b
  {
    if a != "" && b != "" && a[0] == b[0] {
      CmpSymmetric(a[1..], b[1..]);
      assert a == [a[0]] + a[1..] && b == [b[0]] + b[1..];
    }
  }

  lemma {:induction false} CmpTransitive(a: string, b: string, c: string)
    requires Cmp(a, b) <= 0 && Cmp(b, c) <= 0
    ensures Cmp(a, c) <= 0
    ensures Cmp(a, b) < 0 || Cmp(b, c) < 0 ==> Cmp(a, c) < 0
  {
    if a != "" && b != "" && c != "" && a[0] == b[0] == c[0] {
      CmpTransitive(a[1..], b[1..], c[1..]);
    }
  }

  /** Text a comes before text b in the dictionary: up to some place k they agree, and there a ends first
      or has the smaller character. */
  ghost predicate Before(a: string, b: string) {
    exists k: nat :: DiffersAt(a, b, k)
  }

  predicate DiffersAt(a: string, b: string, k: nat) {
    && k <= |a| && k < |b| && a[..k] == b[..k]
    && (k == |a| || a[k] < b[k])
  }

  lemma {:induction false} CmpFinds(a: string, b: string) returns (k: nat)
    requires Cmp(a, b) < 0
    ensures DiffersAt(a, b, k)
  {
    if a == "" || a[0] != b[0] {
      k := 0;
    } else {
      k := CmpFinds(a[1..], b[1..]);
      assert a[..k + 1] == [a[0]] + a[1..][..k] && b[..k + 1] == [b[0]] + b[1..][..k];
      k := k + 1;
    }
  }

  lemma {:induction false} DifferenceDecides(a: string, b: string, k: nat)
    requires DiffersAt(a, b, k)
    ensures Cmp(a, b) < 0
  {
    if k > 0 {
      assert a[0] == a[..k][0] == b[..k][0] == b[0];
      assert a[1..][..k - 1] == a[..k][1..] && b[1..][..k - 1] == b[..k][1..];
      DifferenceDecides(a[1..], b[1..], k - 1);
    }
  }

  /** The sign of strcmp is the order of the dictionary. */
  lemma CmpIsDictionary(a: string, b: string)
    ensures Cmp(a, b) < 0 <==> Before(a, b)
    ensures Cmp(a, b) > 0 <==> Before(b, a)
  {
    CmpSymmetric(a, b);
    if Cmp(a, b) < 0 {
      var k := CmpFinds(a, b);
    }
    if Cmp(b, a) < 0 {
      var k := CmpFinds(b, a);
    }
    if Before(a, b) {
      var k: nat :| DiffersAt(a, b, k);
      DifferenceDecides(a, b, k);
    }
    if Before(b, a) {
      var k: nat :| DiffersAt(b, a, k);
      DifferenceDecides(b, a, k);
    }
  }

  /** No value comes after one that follows it, and equal ones are in their first order: in the terms of
      the dictionary. */
  lemma StableSortIsDictionary(vals: seq<string>, perm: seq<nat>, i: nat, j: nat)
    requires IsStableSort(vals, perm) && i < j < |vals|
    ensures Before(vals[perm[i]], vals[perm[j]]) || (vals[perm[i]] == vals[perm[j]] && perm[i] < perm[j])
  {
    CmpIsDictionary(vals[perm[i]], vals[perm[j]]);
    CmpSymmetric(vals[perm[i]], vals[perm[j]]);
  }

  // ----- What a stable sort is

  /** Index i goes before index j: by value, and among equal values by position. */
  predicate Precedes(vals: seq<string>, i: nat, j: nat)
    requires i < |vals| && j < |vals|
  {
    Cmp(vals[i], vals[j]) < 0 || (Cmp(vals[i], vals[j]) == 0 && i < j)
  }

  predicate IsPermutation(perm: seq<nat>, n: nat) {
    && |perm| == n
    && (forall i :: 0 <= i < n ==> perm[i] < n)
    && (forall i, j :: 0 <= i < j < n ==> perm[i] != perm[j])
  }

  function Identity(n: nat): (perm: seq<nat>)
    ensures IsPermutation(perm, n) && forall i :: 0 <= i < n ==> perm[i] == i
  {
    seq(n, i => i)
  }

  /** The arrangement perm of the values is sorted and keeps the order of equal values. */
  predicate IsStableSort(vals: seq<string>, perm: seq<nat>) {
    && IsPermutation(perm, |vals|)
    && forall i, j :: 0 <= i < j < |vals| ==> Precedes(vals, perm[i], perm[j])
  }

  lemma PrecedesStrict(vals: seq<string>, i: nat, j: nat)
    requires i < |vals| && j < |vals|
    ensures !(Precedes(vals, i, j) && Precedes(vals, j, i))
  {
    CmpSymmetric(vals[i], vals[j]);
  }

  /** A permutation reaches every index. */
  lemma {:induction false} PermutationReaches(perm: seq<nat>, n: nat, v: nat) returns (k: nat)
    requires IsPermutation(perm, n) && v < n
    ensures k < n && perm[k] == v
  {
    var image := set i | 0 <= i < n :: perm[i];
    ImageSize(perm, n);
    SubsetOfSameSize(image, Below(n));
    assert v in image;
    k :| 0 <= k < n && perm[k] == v;
  }

  lemma {:induction false} ImageSize(perm: seq<nat>, m: nat)
    requires m <= |perm| && forall i, j :: 0 <= i < j < |perm| ==> perm[i] != perm[j]
    ensures |set i | 0 <= i < m :: perm[i]| == m
  {
    if m > 0 {
      ImageSize(perm, m - 1);
      var smaller := set i | 0 <= i < m - 1 :: perm[i];
      assert (set i | 0 <= i < m :: perm[i]) == smaller + {perm[m - 1]};
      assert perm[m - 1] !in smaller;
    }
  }

  lemma FirstDifference(vals: seq<string>, p: seq<nat>, q: seq<nat>, k: nat)
    requires IsStableSort(vals, p) && IsStableSort(vals, q)
    requires k < |vals| && p[..k] == q[..k] && p[k] != q[k]
    ensures Precedes(vals, p[k], q[k])
  {
    var j := PermutationReaches(p, |vals|, q[k]);
    assert forall i :: 0 <= i < k ==> p[i] == p[..k][i] == q[..k][i] == q[i];
    assert j > k;
  }

  /** A list has exactly one stable sort, so the result of sorting is determined. */
  lemma {:induction false} StableSortIsUnique(vals: seq<string>, p: seq<nat>, q: seq<nat>, k: nat)
    requires IsStableSort(vals, p) && IsStableSort(vals, q) && k <= |vals|
    ensures p[..k] == q[..k]
    ensures k == |vals| ==> p == q
  {
    if k > 0 {
      StableSortIsUnique(vals, p, q, k - 1);
      if p[k - 1] != q[k - 1] {
        FirstDifference(vals, p, q, k - 1);
        FirstDifference(vals, q, p, k - 1);
        PrecedesStrict(vals, p[k - 1], q[k - 1]);
      }
      assert p[..k] == p[..k - 1] + [p[k - 1]];
    }
  }

  // ----- The linked list

  class MatchNode {
    const val: string
    var next: MatchNode?

    constructor (val: string)
      ensures this.val == val && next == null
    {
      this.val := val;
      next := null;
    }
  }

  function Vals(nodes: seq<MatchNode>): (vals: seq<string>)
    ensures |vals| == |nodes| && forall i :: 0 <= i < |nodes| ==> vals[i] == nodes[i].val
  {
    seq(|nodes|, i requires 0 <= i < |nodes| => nodes[i].val)
  }

  ghost predicate Distinct(nodes: seq<MatchNode>) {
    forall i, j :: 0 <= i < j < |nodes| ==> nodes[i] != nodes[j]
  }

  /** No node at or after m is smaller than one before it. */
  ghost predicate SortedFrom(nodes: seq<MatchNode>, m: nat) {
    forall p, q :: 0 <= p < q < |nodes| && m <= q ==> Cmp(nodes[p].val, nodes[q].val) <= 0
  }

  /** No node before k is larger than the one at k. */
  ghost predicate LargestAt(nodes: seq<MatchNode>, k: nat)
    requires k < |nodes|
  {
    forall p :: 0 <= p < k ==> Cmp(nodes[p].val, nodes[k].val) <= 0
  }

  /** perm says where each node was at first; equal values are still in their first order. */
  ghost predicate Rearranged(orig: seq<MatchNode>, nodes: seq<MatchNode>, perm: seq<nat>) {
    && |nodes| == |orig| && IsPermutation(perm, |orig|)
    && (forall i :: 0 <= i < |nodes| ==> nodes[i] == orig[perm[i]])
    && (forall i, j :: 0 <= i < j < |nodes| && nodes[i].val == nodes[j].val ==> perm[i] < perm[j])
  }

  function Swapped<T>(s: seq<T>, k: nat): (r: seq<T>)
    requires k + 1 < |s|
    ensures |r| == |s| && r[k] == s[k + 1] && r[k + 1] == s[k]
    ensures forall i :: 0 <= i < |s| && i != k && i != k + 1 ==> r[i] == s[i]
  {
    s[k := s[k + 1]][k + 1 := s[k]]
  }

  lemma SwapRearranged(orig: seq<MatchNode>, nodes: seq<MatchNode>, perm: seq<nat>, k: nat)
    requires Rearranged(orig, nodes, perm) && k + 1 < |nodes| && nodes[k].val != nodes[k + 1].val
    ensures Rearranged(orig, Swapped(nodes, k), Swapped(perm, k))
  {
  }

  /** The progress of the sort: a rearrangement so far, final from m on, with the largest of the
      first k + 1 nodes at k. */
  ghost predicate Ordered(orig: seq<MatchNode>, nodes: seq<MatchNode>, perm: seq<nat>, m: nat, k: nat) {
    && Rearranged(orig, nodes, perm)
    && SortedFrom(nodes, m)
    && k < |nodes| && LargestAt(nodes, k)
  }

  /** Comparing positions k and k + 1 and exchanging them if needed is one step of progress. */
  lemma OrderedStep(orig: seq<MatchNode>, nodes: seq<MatchNode>, perm: seq<nat>, m: nat, k: nat)
    returns (perm': seq<nat>)
    requires Ordered(orig, nodes, perm, m, k) && k + 1 < m && k + 1 < |nodes|
    ensures var nodes' := if Cmp(nodes[k].val, nodes[k + 1].val) > 0 then Swapped(nodes, k) else nodes;
            Ordered(orig, nodes', perm', m, k + 1)
  {
    CmpSymmetric(nodes[k].val, nodes[k + 1].val);
    if Cmp(nodes[k].val, nodes[k + 1].val) > 0 {
      perm' := Swapped(perm, k);
      SwapRearranged(orig, nodes, perm, k);
    } else {
      perm' := perm;
      forall p | 0 <= p < k
        ensures Cmp(nodes[p].val, nodes[k + 1].val) <= 0
      {
        CmpTransitive(nodes[p].val, nodes[k].val, nodes[k + 1].val);
      }
    }
  }

  lemma OrderedEnd(orig: seq<MatchNode>, nodes: seq<MatchNode>, perm: seq<nat>, m: nat)
    requires Ordered(orig, nodes, perm, m + 1, m)
    ensures Ordered(orig, nodes, perm, m, 0)
  {
  }

  lemma SortedIsStableSort(orig: seq<MatchNode>, nodes: seq<MatchNode>, perm: seq<nat>)
    requires Rearranged(orig, nodes, perm) && SortedFrom(nodes, 1)
    ensures IsStableSort(Vals(orig), perm)
  {
    forall i, j | 0 <= i < j < |orig|
      ensures Precedes(Vals(orig), perm[i], perm[j])
    {
      CmpSymmetric(nodes[i].val, nodes[j].val);
    }
  }

  lemma SortedByDictionary(orig: seq<MatchNode>, nodes: seq<MatchNode>, perm: seq<nat>)
    requires Rearranged(orig, nodes, perm) && SortedFrom(nodes, 1)
    ensures forall i, j :: 0 <= i < j < |nodes| ==>
              Before(nodes[i].val, nodes[j].val) || (nodes[i].val == nodes[j].val && perm[i] < perm[j])
  {
    SortedIsStableSort(orig, nodes, perm);
    forall i, j | 0 <= i < j < |nodes|
      ensures Before(nodes[i].val, nodes[j].val) || (nodes[i].val == nodes[j].val && perm[i] < perm[j])
    {
      StableSortIsDictionary(Vals(orig), perm, i, j);
    }
  }

  class Matches {
    var head: MatchNode?
    var end: MatchNode?
    var count: nat
    ghost var nodes: seq<MatchNode>
    ghost var repr: set<MatchNode>

    /** The nodes are chained from the head; what the last one points to is left open. */
    ghost predicate Linked()
      reads this, repr
    {
      && count == |nodes| && Distinct(nodes) && (forall i :: 0 <= i < count ==> nodes[i] in repr)
      && (if count == 0 then head == null else head == nodes[0])
      && forall i {:trigger nodes[i].next} :: 0 <= i < count - 1 ==> nodes[i].next == nodes[i + 1]
    }

    ghost predicate Valid()
      reads this, repr
    {
      && Linked()
      && (count > 0 ==> end == nodes[count - 1] && end.next == null)
    }

    constructor ()
      ensures Valid() && nodes == [] && repr == {}
    {
      head, end, count, nodes, repr := null, null, 0, [], {};
    }

    /** switch_console_push_match */
    method PushMatch(val: string)
      requires Valid()
      modifies this, repr
      ensures Valid() && fresh(repr - old(repr)) && Vals(nodes) == old(Vals(nodes)) + [val]
      ensures |nodes| == |old(nodes)| + 1 && nodes[..|old(nodes)|] == old(nodes) && fresh(nodes[|old(nodes)|])
    {
      var node := new MatchNode(val);
      if head != null {
        end.next := node;
      } else {
        head := node;
      }
      count := count + 1;
      end := node;
      nodes, repr := nodes + [node], repr + {node};
    }

    /** Exchanges two neighbours of the chain, given also the node before and the node after. */
    method SwapNext(ghost k: nat, s0: MatchNode?, s1: MatchNode, s2: MatchNode, s3: MatchNode?)
      requires Linked() && k + 1 < count && s1 == nodes[k] && s2 == nodes[k + 1]
      requires s0 == if k == 0 then null else nodes[k - 1]
      requires k + 2 < count ==> s3 == nodes[k + 2]
      modifies this`head, this`nodes, repr
      ensures Linked() && nodes == Swapped(old(nodes), k) && s1.next == s3
      ensures k + 2 < count ==> nodes[count - 1].next == old(nodes[count - 1].next)
    {
      s1.next := s3;
      s2.next := s1;
      if s0 != null {
        s0.next := s2;
      }
      if s1 == head {
        head := s2;
      }
      nodes := Swapped(nodes, k);
    }

    /** The four cursors stand around position k. Nothing is said of the fourth one when there is
        no node for it: it may have run off the end, or back into the list. */
    ghost predicate At(k: nat, s0: MatchNode?, s1: MatchNode?, s2: MatchNode?, s3: MatchNode?)
      reads this, repr
    {
      && Linked() && k < count
      && s0 == (if k == 0 then null else nodes[k - 1]) && s1 == nodes[k]
      && (k + 1 < count ==> s2 == nodes[k + 1])
      && (k + 2 < count ==> s3 == nodes[k + 2])
    }

    /** Compares the nodes at k and k + 1, exchanges them if needed, and moves the cursors on. */
    method Visit(ghost k: nat, s0: MatchNode?, s1: MatchNode?, s2: MatchNode?, s3: MatchNode?)
      returns (t0: MatchNode?, t1: MatchNode?, t2: MatchNode?, t3: MatchNode?)
      requires At(k, s0, s1, s2, s3) && k + 1 < count
      modifies this`head, this`nodes, repr
      ensures At(k + 1, t0, t1, t2, t3)
      ensures nodes == if Cmp(s1.val, s2.val) > 0 then Swapped(old(nodes), k) else old(nodes)
    {
      if Cmp(s1.val, s2.val) > 0 {
        SwapNext(k, s0, s1, s2, s3);
        t0, t1, t2 := s2, s1, s1.next;
      } else {
        t0, t1, t2 := s1, s2, s3;
      }
      t3 := if s3 != null && s3.next != null then s3.next else s3;
    }

    /** One pass: compares neighbours from the head on and moves the largest of the first
        count - i + 1 nodes to their end. The first pass reaches the last node, and it may leave
        that node pointing back at the one before it. */
    method Pass(i: nat, ghost orig: seq<MatchNode>, ghost perm: seq<nat>) returns (ghost perm': seq<nat>)
      requires Linked() && 1 <= i < count && Ordered(orig, nodes, perm, count - i + 1, 0)
      modifies this`head, this`nodes, repr
      ensures Linked() && Ordered(orig, nodes, perm', count - i, 0)
    {
      perm' := perm;
      var s0: MatchNode? := null;
      var s1 := head;
      var s2 := if s1 != null then s1.next else null;
      var s3 := if s2 != null then s2.next else null;
      var j := 1;
      while j <= count - i
        invariant 1 <= j <= count - i + 1 && At(j - 1, s0, s1, s2, s3)
        invariant Ordered(orig, nodes, perm', count - i + 1, j - 1)
      {
        ghost var before := nodes;
        s0, s1, s2, s3 := Visit(j - 1, s0, s1, s2, s3);
        perm' := OrderedStep(orig, before, perm', count - i + 1, j - 1);
        j := j + 1;
      }
      OrderedEnd(orig, nodes, perm', count - i);
    }

    /** switch_console_sort_matches: the list ends up as the one stable sort of the nodes it had,
        with its head, its end and its terminator right. */
    method SortMatches() returns (ghost perm: seq<nat>)
      requires Valid()
      modifies this`head, this`end, this`nodes, repr
      ensures Valid()
      ensures IsStableSort(old(Vals(nodes)), perm)
      ensures forall i :: 0 <= i < count ==> nodes[i] == old(nodes)[perm[i]]
      ensures forall i, j :: 0 <= i < j < count ==>
                Before(nodes[i].val, nodes[j].val) || (nodes[i].val == nodes[j].val && perm[i] < perm[j])
    {
      ghost var orig := nodes;
      perm := SortPasses();
      if count >= 2 {
        var p := head;
        var i := 1;
        while i < count
          invariant 1 <= i <= count && p == nodes[i - 1]
        {
          p := p.next;
          i := i + 1;
        }
        p.next := null;
        end := p;
      }
      SortedIsStableSort(orig, nodes, perm);
      SortedByDictionary(orig, nodes, perm);
    }

    /** The passes. They leave open what the last node points to. */
    method SortPasses() returns (ghost perm: seq<nat>)
      requires Valid()
      modifies this`head, this`nodes, repr
      ensures Linked() && Rearranged(old(nodes), nodes, perm) && SortedFrom(nodes, 1)
      ensures count < 2 ==> Valid()
    {
      ghost var orig := nodes;
      perm := Identity(count);
      if count < 2 {
        return;
      }
      var i := 1;
      while i < count
        invariant 1 <= i <= count
        invariant Linked() && Ordered(orig, nodes, perm, count - i + 1, 0)
      {
        perm := Pass(i, orig, perm);
        i := i + 1;
      }
    }
  }
}
