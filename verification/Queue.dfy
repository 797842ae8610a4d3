/**
 * The intrusive lists and tail queues of include/queue.h.
 *
 * A head {first, last} and an entry {next, prev} are both a pair of a pointer to an element and
 * the address of a cell holding such a pointer, in that order. The address of a head's or an
 * entry's first field is the address of the head or entry itself, so "the address of the cell
 * that points to x" is a Link. This is the layout that the casts in TAILQ_LAST and TAILQ_PREV
 * rely on: reading tqh_last at the address of an entry yields its tqe_prev.
 */
module Queue {

  class Link {
    /** tqh_first or tqe_next; lh_first or le_next */
    var next: Link?
    /** tqh_last or tqe_prev, as the Link whose `next` is the cell meant; le_prev */
    var prev: Link

    constructor ()
      ensures next == null && prev == this
    {
      next := null;
      prev := this;
    }
  }

  /** The element after index `i`, or null at the end. */
  ghost function After(s: seq<Link>, i: int): Link? {
    if 0 <= i + 1 < |s| then s[i + 1] else null
  }

  /** The cell that points to index `i`: the element before it, or the head. */
  ghost function Before(h: Link, s: seq<Link>, i: int): Link {
    if 0 < i <= |s| then s[i - 1] else h
  }

  ghost predicate Distinct(h: Link, s: seq<Link>) {
    && h !in s
    && forall i, j :: 0 <= i < j < |s| ==> s[i] != s[j]
  }

  /** The LIST headed by `h` is `s`, and every le_prev is the address holding the pointer to its element. */
  ghost predicate IsList(h: Link, s: seq<Link>)
    reads h, s
  {
    && Distinct(h, s)
    && h.next == After(s, -1)
    && (forall i {:trigger s[i].next} :: 0 <= i < |s| ==> s[i].next == After(s, i))
    && (forall i {:trigger s[i].prev} :: 0 <= i < |s| ==> s[i].prev == Before(h, s, i))
  }

  /** The TAILQ headed by `h` is `s`: a list whose head also knows the last cell. */
  ghost predicate IsQueue(h: Link, s: seq<Link>)
    reads h, s
  {
    IsList(h, s) && h.prev == Before(h, s, |s|)
  }

  ghost function Inserted(s: seq<Link>, i: nat, e: Link): (t: seq<Link>)
    requires i <= |s|
    ensures |t| == |s| + 1
    ensures forall j {:trigger t[j]} :: 0 <= j < |t| ==> t[j] == if j < i then s[j] else if j == i then e else s[j - 1]
  {
    s[..i] + [e] + s[i..]
  }

  lemma InsertedDistinct(h: Link, s: seq<Link>, i: nat, e: Link)
    requires Distinct(h, s) && i <= |s| && e != h && e !in s
    ensures Distinct(h, Inserted(s, i, e))
  {
    var t := Inserted(s, i, e);
    forall j, k | 0 <= j < k < |t| ensures t[j] != t[k] {
      var j', k' := if j < i then j else j - 1, if k < i then k else k - 1;
      if j != i && k != i { assert s[j'] != s[k']; }
    }
  }

  ghost function Removed(s: seq<Link>, i: nat): (t: seq<Link>)
    requires i < |s|
    ensures |t| == |s| - 1
    ensures forall j {:trigger t[j]} :: 0 <= j < |t| ==> t[j] == if j < i then s[j] else s[j + 1]
  {
    s[..i] + s[i + 1..]
  }

  lemma RemovedDistinct(h: Link, s: seq<Link>, i: nat)
    requires Distinct(h, s) && i < |s|
    ensures Distinct(h, Removed(s, i))
  {
    var t := Removed(s, i);
    forall j, k | 0 <= j < k < |t| ensures t[j] != t[k] {
      assert s[if j < i then j else j + 1] != s[if k < i then k else k + 1];
    }
  }

  ghost function Joined(s1: seq<Link>, s2: seq<Link>): (t: seq<Link>)
    ensures |t| == |s1| + |s2|
    ensures forall j {:trigger t[j]} :: 0 <= j < |t| ==> t[j] == if j < |s1| then s1[j] else s2[j - |s1|]
  {
    s1 + s2
  }

  lemma JoinedDistinct(h: Link, s1: seq<Link>, s2: seq<Link>)
    requires Distinct(h, s1) && Distinct(h, s2) && forall x :: x in s1 ==> x !in s2
    ensures Distinct(h, Joined(s1, s2))
  {
    var t := Joined(s1, s2);
    forall j, k | 0 <= j < k < |t| ensures t[j] != t[k] {
      if j < |s1| && k >= |s1| { assert s1[j] in s1 && s2[k - |s1|] in s2; }
    }
  }

  /** The pointers determine the sequence. */
  lemma {:induction false} SameFrom(h: Link, s: seq<Link>, t: seq<Link>, k: nat)
    requires IsList(h, s) && IsList(h, t) && k <= |s| && k <= |t| && s[..k] == t[..k]
    ensures s == t
    decreases |s| - k
  {
    if k < |s| && k < |t| {
      assert Before(h, s, k) == Before(h, t, k);
      assert s[k] == t[k] by {
        if k > 0 { assert s[k - 1] == t[k - 1] && s[k - 1].next == s[k] && t[k - 1].next == t[k]; }
      }
      assert s[..k + 1] == s[..k] + [s[k]] && t[..k + 1] == t[..k] + [t[k]];
      SameFrom(h, s, t, k + 1);
    } else if k > 0 {
      assert s[k - 1] == t[k - 1] && s[k - 1].next == t[k - 1].next;
      assert k == |s| && k == |t|;
      assert s == s[..k] && t == t[..k];
    }
  }

  lemma ListUnique(h: Link, s: seq<Link>, t: seq<Link>)
    requires IsList(h, s) && IsList(h, t)
    ensures s == t
  {
    SameFrom(h, s, t, 0);
  }

  // ----- LIST ------------------------------------------------------------------------------

  method ListInsertHead(h: Link, e: Link, ghost s: seq<Link>)
    requires IsList(h, s) && e != h && e !in s
    modifies h, e, s
    ensures IsList(h, [e] + s)
    ensures h.prev == old(h.prev)
  {
    e.next := h.next;
    if e.next != null {
      h.next.prev := e;
    }
    h.next := e;
    e.prev := h;
  }

  method ListRemove(e: Link, ghost h: Link, ghost s: seq<Link>, ghost i: nat)
    requires IsList(h, s) && i < |s| && s[i] == e
    modifies h, s
    ensures IsList(h, Removed(s, i))
    ensures h.prev == old(h.prev)
  {
    if e.next != null {
      e.next.prev := e.prev;
    }
    e.prev.next := e.next;
    RemovedDistinct(h, s, i);
  }

  // ----- TAILQ -----------------------------------------------------------------------------

  method TailqInit(h: Link)
    modifies h
    ensures IsQueue(h, [])
  {
    h.next := null;
    h.prev := h;
  }

  method TailqInsertHead(h: Link, e: Link, ghost s: seq<Link>)
    requires IsQueue(h, s) && e != h && e !in s
    modifies h, e, s
    ensures IsQueue(h, [e] + s)
  {
    e.next := h.next;
    if e.next != null {
      h.next.prev := e;
    } else {
      h.prev := e;
    }
    h.next := e;
    e.prev := h;
  }

  method TailqInsertTail(h: Link, e: Link, ghost s: seq<Link>)
    requires IsQueue(h, s) && e != h && e !in s
    modifies h, e, s
    ensures IsQueue(h, s + [e])
  {
    e.next := null;
    e.prev := h.prev;
    h.prev.next := e;
    h.prev := e;
  }

  method TailqInsertAfter(h: Link, at: Link, e: Link, ghost s: seq<Link>, ghost i: nat)
    requires IsQueue(h, s) && e != h && e !in s && i < |s| && s[i] == at
    modifies h, e, s
    ensures IsQueue(h, Inserted(s, i + 1, e))
  {
    hide Inserted;
    e.next := at.next;
    if e.next != null {
      e.next.prev := e;
    } else {
      h.prev := e;
    }
    at.next := e;
    e.prev := at;
    InsertedDistinct(h, s, i + 1, e);
    ghost var t := Inserted(s, i + 1, e);
    forall j | 0 <= j < |t| ensures t[j].next == After(t, j) && t[j].prev == Before(h, t, j) {
      if j <= i { assert t[j] == s[j]; }
    }
  }

  method TailqInsertBefore(at: Link, e: Link, ghost h: Link, ghost s: seq<Link>, ghost i: nat)
    requires IsQueue(h, s) && e != h && e !in s && i < |s| && s[i] == at
    modifies h, e, s
    ensures IsQueue(h, Inserted(s, i, e))
  {
    e.prev := at.prev;
    e.next := at;
    at.prev.next := e;
    at.prev := e;
    InsertedDistinct(h, s, i, e);
    ghost var t := Inserted(s, i, e);
    forall j | 0 <= j < |t| ensures t[j].next == After(t, j) && t[j].prev == Before(h, t, j) {
      if j < i { assert t[j] == s[j]; }
    }
  }

  method TailqRemove(h: Link, e: Link, ghost s: seq<Link>, ghost i: nat)
    requires IsQueue(h, s) && i < |s| && s[i] == e
    modifies h, s
    ensures IsQueue(h, Removed(s, i))
  {
    if e.next != null {
      e.next.prev := e.prev;
    } else {
      h.prev := e.prev;
    }
    e.prev.next := e.next;
    RemovedDistinct(h, s, i);
  }

  method TailqConcat(h1: Link, h2: Link, ghost s1: seq<Link>, ghost s2: seq<Link>)
    requires IsQueue(h1, s1) && IsQueue(h2, s2) && h1 != h2 && h1 !in s2 && h2 !in s1
    requires forall x :: x in s1 ==> x !in s2
    modifies h1, h2, s1, s2
    ensures IsQueue(h1, Joined(s1, s2)) && IsQueue(h2, [])
  {
    if h2.next != null {
      h1.prev.next := h2.next;
      h2.next.prev := h1.prev;
      h1.prev := h2.prev;
      TailqInit(h2);
      assert forall j {:trigger s1[j]} :: 0 <= j < |s1| ==> s1[j] in s1 && s1[j] !in s2;
      assert forall j {:trigger s2[j]} :: 0 <= j < |s2| ==> s2[j] in s2;
      JoinedLinks(h1, s1, s2);
    }
    JoinedDistinct(h1, s1, s2);
    assert s2 == [] ==> Joined(s1, s2) == s1;
  }

  /** What the assignments of TAILQ_CONCAT leave behind, seen along the joined sequence. */
  lemma JoinedLinks(h1: Link, s1: seq<Link>, s2: seq<Link>)
    requires s2 != []
    requires forall j {:trigger s1[j].next} :: 0 <= j < |s1| ==> s1[j].next == if j + 1 < |s1| then s1[j + 1] else s2[0]
    requires forall j {:trigger s1[j].prev} :: 0 <= j < |s1| ==> s1[j].prev == Before(h1, s1, j)
    requires forall j {:trigger s2[j].next} :: 0 <= j < |s2| ==> s2[j].next == After(s2, j)
    requires forall j {:trigger s2[j].prev} :: 0 <= j < |s2| ==>
               s2[j].prev == if j == 0 then Before(h1, s1, |s1|) else s2[j - 1]
    ensures var t := Joined(s1, s2);
            && (forall j {:trigger t[j].next} :: 0 <= j < |t| ==> t[j].next == After(t, j))
            && (forall j {:trigger t[j].prev} :: 0 <= j < |t| ==> t[j].prev == Before(h1, t, j))
  {
    var t := Joined(s1, s2);
    forall j | 0 <= j < |t| ensures t[j].next == After(t, j) && t[j].prev == Before(h1, t, j) {
      if j < |s1| { assert t[j] == s1[j]; } else { assert t[j] == s2[j - |s1|]; }
    }
  }

  /** TAILQ_LAST: the cast reads the tqe_prev of the last entry, whose cell points to that entry. */
  method TailqLast(h: Link, ghost s: seq<Link>) returns (x: Link?)
    requires IsQueue(h, s)
    ensures x == if s == [] then null else s[|s| - 1]
  {
    x := h.prev.prev.next;
  }

  /** TAILQ_PREV: the predecessor, or null for the first element. */
  method TailqPrev(e: Link, ghost h: Link, ghost s: seq<Link>, ghost i: nat) returns (x: Link?)
    requires IsQueue(h, s) && i < |s| && s[i] == e
    ensures x == if i == 0 then null else s[i - 1]
  {
    x := e.prev.prev.next;
  }

  ghost function Reversed(s: seq<Link>): (r: seq<Link>)
    ensures |r| == |s|
    ensures forall k :: 0 <= k < |s| ==> r[k] == s[|s| - 1 - k]
  {
    if s == [] then [] else Reversed(s[1..]) + [s[0]]
  }

  /** TAILQ_FOREACH visits the queue in order. */
  method TailqForeach(h: Link, ghost s: seq<Link>) returns (visited: seq<Link>)
    requires IsQueue(h, s)
    ensures visited == s
  {
    visited := [];
    var x := h.next;
    while x != null
      invariant |visited| <= |s| && visited == s[..|visited|]
      invariant x == After(s, |visited| - 1)
      decreases |s| - |visited|
    {
      visited := visited + [x];
      x := x.next;
    }
  }

  /** TAILQ_FOREACH_REVERSE visits it backwards. */
  method TailqForeachReverse(h: Link, ghost s: seq<Link>) returns (visited: seq<Link>)
    requires IsQueue(h, s)
    ensures visited == Reversed(s)
  {
    visited := [];
    var x := TailqLast(h, s);
    ghost var k := |s|;
    while x != null
      invariant 0 <= k <= |s| && |visited| == |s| - k
      invariant forall j :: 0 <= j < |visited| ==> visited[j] == s[|s| - 1 - j]
      invariant x == if k == 0 then null else s[k - 1]
      decreases k
    {
      visited := visited + [x];
      x := TailqPrev(x, h, s, k - 1);
      k := k - 1;
    }
  }
}
