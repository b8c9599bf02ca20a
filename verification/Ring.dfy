/** The intrusive circular lists of list.h. The head is a link like any other, and
    LIST_ELEM is the field `elem`: the structure that encloses the link. */
module Ring {
  import opened Options
  import opened Sequences

  class Link<T> {
    var n: Link<T>
    var p: Link<T>
    const elem: Option<T>

    // LIST_INIT
    constructor (elem: Option<T>)
      ensures IsRing(this, []) && this.elem == elem
    {
      this.elem := elem;
      n, p := this, this;
    }
  }

  ghost predicate Chain<T>(s: seq<Link<T>>)
    reads s
  {
    && (forall i :: 0 <= i < |s| - 1 ==> s[i].n == s[i + 1])
    && (forall i :: 0 < i < |s| ==> s[i].p == s[i - 1])
  }

  // One cycle: `n` leads from `head` through `s`, in order, back to `head`; `p` leads back.
  ghost predicate IsRing<T>(head: Link<T>, s: seq<Link<T>>)
    reads head, s
  {
    && head !in s && Distinct(s) && Chain(s)
    && if s == [] then head.n == head && head.p == head
       else head.n == s[0] && s[0].p == head && s[|s| - 1].n == head && head.p == s[|s| - 1]
  }

  /** What a ring is: from every link of it, the head included, `n` and then `p` lead back,
      `p` and then `n` as well; and `n` leads from the head through all of them and back. */
  lemma MutuallyInverse<T>(head: Link<T>, s: seq<Link<T>>)
    requires IsRing(head, s)
    ensures var all := [head] + s;
            forall k :: 0 <= k < |all| ==>
              all[k].n.p == all[k] && all[k].p.n == all[k] && all[k].n == all[if k + 1 < |all| then k + 1 else 0]
    ensures var all := [head] + s; forall i, k :: 0 <= i < k < |all| ==> all[i] != all[k]
  {
    var all := [head] + s;
    forall k | 0 <= k < |all|
      ensures all[k].n.p == all[k] && all[k].p.n == all[k] && all[k].n == all[if k + 1 < |all| then k + 1 else 0]
    {
      assert s != [] ==> all[1] == s[0] && all[|all| - 1] == s[|s| - 1];
      if k > 0 {
        assert all[k] == s[k - 1];
        assert s[k - 1].n == if k < |s| then s[k] else head;
        assert s[k - 1].p == if k > 1 then s[k - 2] else head;
      }
    }
  }

  // LIST_ADD
  method Add<T>(lh: Link<T>, el: Link<T>, ghost s: seq<Link<T>>)
    requires IsRing(lh, s) && el != lh && el !in s
    modifies el, lh, lh.n
    ensures IsRing(lh, [el] + s)
  {
    el.n := lh.n;
    lh.n := el;
    el.n.p := el;
    el.p := lh;
  }

  // LIST_ADDQ
  method AddQ<T>(lh: Link<T>, el: Link<T>, ghost s: seq<Link<T>>)
    requires IsRing(lh, s) && el != lh && el !in s
    modifies el, lh, lh.p
    ensures IsRing(lh, s + [el])
  {
    el.p := lh.p;
    lh.p := el;
    el.p.n := el;
    el.n := lh;
  }

  // LIST_DEL
  method Del<T>(el: Link<T>, ghost lh: Link<T>, ghost s: seq<Link<T>>, ghost i: nat)
    requires IsRing(lh, s) && i < |s| && s[i] == el
    modifies el.n, el.p
    ensures IsRing(lh, Remove(s, i))
    ensures el.n == old(el.n) && el.p == old(el.p)
  {
    ghost var r := Remove(s, i);
    Without(s, i);
    assert el.n == (if i + 1 < |s| then s[i + 1] else lh) && el.p == (if i > 0 then s[i - 1] else lh);
    el.n.p := el.p;
    el.p.n := el.n;
  }

  // LIST_DEL_INIT
  method DelInit<T>(el: Link<T>, ghost lh: Link<T>, ghost s: seq<Link<T>>, ghost i: nat)
    requires IsRing(lh, s) && i < |s| && s[i] == el
    modifies el, el.n, el.p
    ensures IsRing(lh, Remove(s, i)) && IsRing(el, [])
  {
    ghost var r := Remove(s, i);
    Without(s, i);
    assert el.n == (if i + 1 < |s| then s[i + 1] else lh) && el.p == (if i > 0 then s[i - 1] else lh);
    var n, p := el.n, el.p;
    n.p := p;
    p.n := n;
    el.n, el.p := el, el;
  }

  // LIST_SPLICE
  method Splice<T>(lh: Link<T>, other: Link<T>, ghost a: seq<Link<T>>, ghost b: seq<Link<T>>)
    requires IsRing(lh, a) && IsRing(other, b)
    requires lh != other && lh !in b && other !in a && Disjoint(a, b)
    modifies lh, lh.n, other.n, other.p
    ensures IsRing(lh, b + a)
    ensures other.n == old(other.n) && other.p == old(other.p)
  {
    assert b + a == if b == [] then a else b + a;
    if other.n != other {
      other.p.n := lh.n;
      other.n.p := lh;
      lh.n.p := other.p;
      lh.n := other.n;
      assert Chain(a);
      assert Chain(b);
      DistinctConcat(b, a);
    }
  }

  // LIST_SPLICE_END_DETACHED: `other` is the first link of a ring without a head.
  method SpliceEndDetached<T>(lh: Link<T>, other: Link<T>, ghost a: seq<Link<T>>, ghost b: seq<Link<T>>)
    requires IsRing(lh, a) && IsRing(other, b)
    requires lh != other && lh !in b && other !in a && Disjoint(a, b)
    modifies lh, lh.p, other, other.p
    ensures IsRing(lh, a + [other] + b)
  {
    DistinctConcat([other], b);
    DistinctConcat(a, [other] + b);
    assert a + [other] + b == a + ([other] + b);
    lh.p.n := other;
    other.p.n := lh;
    var t := other.p;
    other.p := lh.p;
    lh.p := t;
  }

  // The unlinking of session_remove_from_list: a link that is in no list is left alone.
  method Unlink<T>(el: Link<T>, ghost lh: Link<T>, ghost s: seq<Link<T>>, ghost i: nat)
    requires IsRing(el, []) || (IsRing(lh, s) && i < |s| && s[i] == el)
    modifies el.n, el.p
    ensures old(IsRing(el, [])) ==> IsRing(el, [])
    ensures old(IsRing(lh, s)) && i < |s| && s[i] == el ==> IsRing(lh, Remove(s, i))
    ensures el.n == old(el.n) && el.p == old(el.p)
  {
    if el.n != el {
      Del(el, lh, s, i);
    }
  }

  method UnlinkFirst<T>(el: Link<T>, ghost lh: Link<T>, ghost s: seq<Link<T>>) returns (ghost rest: seq<Link<T>>)
    requires IsRing(lh, s) && s != [] && s[0] == el
    modifies lh, if |s| > 1 then s[1] else lh
    ensures s == [el] + rest && IsRing(lh, rest) && el.n == old(el.n) == lh.n
  {
    assert el.n == if |s| > 1 then s[1] else lh;
    assert s[..0] + s[0 + 1..] == s[1..];
    Unlink(el, lh, s, 0);
    rest := s[1..];
  }

  lemma Start<T>(head: Link<T>, s: seq<Link<T>>)
    requires IsRing(head, s)
    ensures head.n == (if s == [] then head else s[0]) && (s != [] ==> s[0] != head)
    ensures s != [] ==> s[0].n == if |s| > 1 then s[1] else head
  {
  }

  // list_for_each_entry_safe with the unlinking of each element as its body.
  method DropAll<T>(head: Link<T>, ghost s: seq<Link<T>>) returns (visited: seq<Link<T>>)
    requires IsRing(head, s)
    modifies head, s
    ensures visited == s
    ensures IsRing(head, [])
  {
    hide IsRing;
    visited := [];
    ghost var rest := s;
    Start(head, rest);
    var item := head.n;
    var back := item.n;
    while item != head
      invariant visited + rest == s
      invariant IsRing(head, rest)
      invariant item == head.n && back == item.n
      decreases |rest|
    {
      Start(head, rest);
      assert |rest| > 1 ==> rest[1] == s[|visited| + 1];
      rest := UnlinkFirst(item, head, rest);
      visited := visited + [item];
      item := back;
      back := back.n;
    }
    Start(head, rest);
  }
}
