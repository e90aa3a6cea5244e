/** The intrusive circular doubly linked lists of kernel/list.c.

    All lists share one memory: a node is the head embedded in a size record, or the first bytes
    of a free block named by its address. The pointer code is proved against `lists`, the
    sequence of addresses each head reaches. */
module List {

  datatype Node = Head(k: nat) | Elem(p: nat)

  /** The `j`-th node of the cycle of list `k`: the head, the elements, and the head again. */
  function At(lists: seq<seq<nat>>, k: nat, j: nat): Node
    requires k < |lists| && j <= |lists[k]| + 1
  {
    if 1 <= j <= |lists[k]| then Elem(lists[k][j - 1]) else Head(k)
  }

  ghost predicate Linked(lists: seq<seq<nat>>, next: map<Node, Node>, prev: map<Node, Node>, k: nat, j: nat)
    requires k < |lists| && j <= |lists[k]|
  {
    var a, b := At(lists, k, j), At(lists, k, j + 1);
    a in next && next[a] == b && b in prev && prev[b] == a
  }

  predicate Unique(lists: seq<seq<nat>>, k: nat, j: nat, k': nat, j': nat)
    requires k < |lists| && j < |lists[k]| && k' < |lists| && j' < |lists[k']|
  {
    lists[k][j] == lists[k'][j'] ==> k == k' && j == j'
  }

  /** No address occurs twice, in one list or in two. */
  ghost predicate Distinct(lists: seq<seq<nat>>) {
    forall k, j, k', j' {:trigger Unique(lists, k, j, k', j')} |
      0 <= k < |lists| && 0 <= j < |lists[k]| && 0 <= k' < |lists| && 0 <= j' < |lists[k']| ::
        Unique(lists, k, j, k', j')
  }

  /** Nodes of the cycles are at one place each, but that a head is at both ends of its own. */
  lemma AtInj(lists: seq<seq<nat>>, k: nat, j: nat, k': nat, j': nat)
    requires Distinct(lists) && k < |lists| && j <= |lists[k]| + 1 && k' < |lists| && j' <= |lists[k']| + 1
    requires At(lists, k, j) == At(lists, k', j')
    ensures k == k' && (j == j' || (j == 0 && j' == |lists[k]| + 1) || (j == |lists[k]| + 1 && j' == 0))
  {
    if 1 <= j <= |lists[k]| { assert Unique(lists, k, j - 1, k', j' - 1); }
  }

  ghost predicate Nowhere(lists: seq<seq<nat>>, p: nat) {
    forall k | 0 <= k < |lists| :: p !in lists[k]
  }

  function Remove(s: seq<nat>, x: nat): (r: seq<nat>)
    ensures x !in s ==> r == s
  {
    if s == [] then [] else if s[0] == x then s[1..] else [s[0]] + Remove(s[1..], x)
  }

  lemma {:induction false} RemoveAt(s: seq<nat>, j: nat)
    requires j < |s|
    requires forall i | 0 <= i < j :: s[i] != s[j]
    ensures Remove(s, s[j]) == s[..j] + s[j + 1..]
  {
    if j > 0 {
      var t := s[1..];
      RemoveAt(t, j - 1);
      assert t[j - 1] == s[j] && t[j..] == s[j + 1..];
      assert [s[0]] + (t[..j - 1] + t[j..]) == s[..j] + s[j + 1..];
    }
  }

  function Without(lists: seq<seq<nat>>, k: nat, j: nat): seq<seq<nat>>
    requires k < |lists| && j < |lists[k]|
  {
    lists[k := lists[k][..j] + lists[k][j + 1..]]
  }

  lemma UnlinkDistinct(lists: seq<seq<nat>>, k: nat, j: nat)
    requires Distinct(lists) && k < |lists| && j < |lists[k]|
    ensures Distinct(Without(lists, k, j))
  {
    var now := Without(lists, k, j);
    forall k1, j1, k2, j2 | 0 <= k1 < |now| && 0 <= j1 < |now[k1]| && 0 <= k2 < |now| && 0 <= j2 < |now[k2]|
      ensures Unique(now, k1, j1, k2, j2)
    {
      var o1 := if k1 == k && j1 >= j then j1 + 1 else j1;
      var o2 := if k2 == k && j2 >= j then j2 + 1 else j2;
      assert Unique(lists, k1, o1, k2, o2);
    }
  }

  lemma PushDistinct(lists: seq<seq<nat>>, k: nat, p: nat)
    requires Distinct(lists) && k < |lists| && Nowhere(lists, p)
    ensures Distinct(lists[k := [p] + lists[k]])
  {
    var now := lists[k := [p] + lists[k]];
    forall k1, j1, k2, j2 | 0 <= k1 < |now| && 0 <= j1 < |now[k1]| && 0 <= k2 < |now| && 0 <= j2 < |now[k2]|
      ensures Unique(now, k1, j1, k2, j2)
    {
      var o1 := if k1 == k then j1 - 1 else j1;
      var o2 := if k2 == k then j2 - 1 else j2;
      assert o1 >= 0 ==> lists[k1][o1] in lists[k1];
      assert o2 >= 0 ==> lists[k2][o2] in lists[k2];
      assert o1 >= 0 && o2 >= 0 ==> Unique(lists, k1, o1, k2, o2);
    }
  }

  lemma UnlinkLinked(lists: seq<seq<nat>>, next: map<Node, Node>, prev: map<Node, Node>, k: nat, j: nat, k': nat,
                     j': nat)
    requires Distinct(lists) && k < |lists| && j < |lists[k]|
    requires forall k, j | 0 <= k < |lists| && 0 <= j <= |lists[k]| :: Linked(lists, next, prev, k, j)
    requires k' < |lists| && j' <= |Without(lists, k, j)[k']|
    ensures var n, p := At(lists, k, j + 2), At(lists, k, j);
            Linked(Without(lists, k, j), next[p := n], prev[n := p], k', j')
  {
    var o := if k' == k && j' > j then j' + 1 else j';
    assert Linked(lists, next, prev, k', o);
    assert Linked(lists, next, prev, k, j) && Linked(lists, next, prev, k, j + 1);
    if At(lists, k', o) == At(lists, k, j) { AtInj(lists, k', o, k, j); }
    if At(lists, k', o + 1) == At(lists, k, j + 2) { AtInj(lists, k', o + 1, k, j + 2); }
  }

  class Arena {
    var next: map<Node, Node>
    var prev: map<Node, Node>
    ghost var lists: seq<seq<nat>>

    ghost predicate Valid()
      reads this
    {
      && Distinct(lists)
      && forall k, j | 0 <= k < |lists| && 0 <= j <= |lists[k]| :: Linked(lists, next, prev, k, j)
    }

    /** `lst_init` on each of `n` heads. */
    constructor (n: nat)
      ensures Valid()
      ensures lists == seq(n, _ => [])
    {
      next := map k | 0 <= k < n :: Head(k) := Head(k);
      prev := map k | 0 <= k < n :: Head(k) := Head(k);
      lists := seq(n, _ => []);
    }

    method Empty(k: nat) returns (e: bool)
      requires Valid() && k < |lists|
      ensures e <==> lists[k] == []
    {
      assert Linked(lists, next, prev, k, 0);
      e := next[Head(k)] == Head(k);
    }

    /** `lst_remove`: unlinks `e` knowing only its address; it sits at index `j` of list `k`. */
    method Unlink(e: nat, ghost k: nat, ghost j: nat)
      requires Valid() && k < |lists| && j < |lists[k]| && lists[k][j] == e
      modifies this
      ensures Valid()
      ensures lists == old(lists)[k := Remove(old(lists)[k], e)]
    {
      assert Linked(lists, next, prev, k, j) && Linked(lists, next, prev, k, j + 1);
      forall i | 0 <= i < j
        ensures lists[k][i] != lists[k][j]
      {
        assert Unique(lists, k, i, k, j);
      }
      RemoveAt(lists[k], j);
      UnlinkDistinct(lists, k, j);
      var n, p := next[Elem(e)], prev[Elem(e)];
      ghost var was, now, next', prev' := lists, Without(lists, k, j), next[p := n], prev[n := p];
      forall k', j' | 0 <= k' < |now| && 0 <= j' <= |now[k']|
        ensures Linked(now, next', prev', k', j')
      {
        UnlinkLinked(was, next, prev, k, j, k', j');
      }
      next := next[p := n];
      prev := prev[n := p];
      lists := Without(lists, k, j);
    }

    method Pop(k: nat) returns (p: nat)
      requires Valid() && k < |lists| && lists[k] != []
      modifies this
      ensures Valid()
      ensures p == old(lists)[k][0]
      ensures lists == old(lists)[k := old(lists)[k][1..]]
    {
      assert Linked(lists, next, prev, k, 0);
      p := next[Head(k)].p;
      Unlink(p, k, 0);
    }

    method Push(k: nat, p: nat)
      requires Valid() && k < |lists| && Nowhere(lists, p)
      modifies this
      ensures Valid()
      ensures lists == old(lists)[k := [p] + old(lists)[k]]
    {
      ghost var was := lists;
      assert Linked(lists, next, prev, k, 0);
      var e, h, f := Elem(p), Head(k), next[Head(k)];
      next := next[e := f];
      prev := prev[e := h];
      prev := prev[f := e];
      next := next[h := e];
      lists := lists[k := [p] + lists[k]];
      PushDistinct(was, k, p);
      forall k', j' | 0 <= k' < |lists| && 0 <= j' <= |lists[k']|
        ensures Linked(lists, next, prev, k', j')
      {
        var o := if k' == k && j' > 0 then j' - 1 else j';
        assert Linked(was, old(next), old(prev), k', o);
        if At(was, k', o) == h { AtInj(was, k', o, k, 0); }
        if At(was, k', o + 1) == f { AtInj(was, k', o + 1, k, 1); }
      }
    }
  }
}
