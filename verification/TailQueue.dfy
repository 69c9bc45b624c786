/**
 Singly-linked tail queues. A queue's `last` is the address of the final `next` field, or
 of the queue's own `first` when it is empty. Elements and queues are named by numbers.
 */
module TailQueue {

  datatype Ptr = Null | To(elem: nat)

  /** The address of a pointer. */
  datatype Slot = FirstOf(head: nat) | NextOf(elem: nat)

  datatype Head = Head(first: Ptr, last: Slot)

  type Nexts = map<nat, Ptr>

  function At(s: seq<nat>, i: nat): Ptr {
    if i < |s| then To(s[i]) else Null
  }

  ghost predicate Distinct(s: seq<nat>) {
    forall i, j | 0 <= i < j < |s| :: s[i] != s[j]
  }

  /** Following `next` from the first element goes through exactly these. */
  ghost predicate Linked(next: Nexts, s: seq<nat>) {
    forall i | 0 <= i < |s| :: s[i] in next && next[s[i]] == At(s, i + 1)
  }

  function LastSlot(h: nat, s: seq<nat>): Slot {
    if s == [] then FirstOf(h) else NextOf(s[|s| - 1])
  }

  /** Queue `h` holds the elements `s`. */
  ghost predicate Holds(head: Head, next: Nexts, h: nat, s: seq<nat>) {
    head == Head(At(s, 0), LastSlot(h, s)) && Linked(next, s) && Distinct(s)
  }

  /** Only these elements' fields were written. */
  ghost predicate Only(next: Nexts, next': Nexts, written: seq<nat>) {
    forall e | e in next && e !in written :: e in next' && next'[e] == next[e]
  }

  /** Writing other elements' fields does not matter to a queue. */
  lemma Unrelated(head: Head, next: Nexts, next': Nexts, h: nat, s: seq<nat>, written: seq<nat>)
    requires Holds(head, next, h, s) && Only(next, next', written) && forall e | e in s :: e !in written
    ensures Holds(head, next', h, s)
  {
    assert forall i | 0 <= i < |s| :: s[i] in s;
  }

  /** What a queue holds is determined by its pointers, so that its elements cannot be lost
      or doubled. */
  lemma {:induction false} ContentsUnique(next: Nexts, s: seq<nat>, t: seq<nat>)
    requires Linked(next, s) && Linked(next, t) && At(s, 0) == At(t, 0)
    ensures s == t
    decreases |s|
  {
    if s != [] && t != [] {
      LinkedTail(next, s);
      LinkedTail(next, t);
      assert At(s, 1) == next[s[0]] == At(t, 1);
      ContentsUnique(next, s[1..], t[1..]);
      assert s == [s[0]] + s[1..] && t == [t[0]] + t[1..];
    }
  }

  lemma LinkedTail(next: Nexts, s: seq<nat>)
    requires Linked(next, s) && s != []
    ensures Linked(next, s[1..]) && At(s[1..], 0) == At(s, 1)
  {
    var r := s[1..];
    forall i | 0 <= i < |r|
      ensures r[i] in next && next[r[i]] == At(r, i + 1)
    {
      assert r[i] == s[i + 1] && At(r, i + 1) == At(s, i + 2);
    }
  }

  // ---------------------------------------------------------------- splicing

  /** Pointing the end of `a` at the start of `b`. */
  function Spliced(next: Nexts, a: seq<nat>, b: seq<nat>): Nexts {
    if a == [] then next else next[a[|a| - 1] := At(b, 0)]
  }

  /** All but the last element of `a` point to the next one. */
  ghost predicate Chained(next: Nexts, a: seq<nat>) {
    forall i | 0 <= i < |a| - 1 :: a[i] in next && next[a[i]] == To(a[i + 1])
  }

  lemma Splice(next: Nexts, a: seq<nat>, b: seq<nat>)
    requires Chained(next, a) && Linked(next, b) && Distinct(a + b)
    ensures Linked(Spliced(next, a, b), a + b)
  {
    var s, n := a + b, Spliced(next, a, b);
    forall i | 0 <= i < |s|
      ensures s[i] in n && n[s[i]] == At(s, i + 1)
    {
      if i < |a| - 1 {
        assert s[i] == a[i] && s[i] != s[|a| - 1];
      } else if i >= |a| {
        assert s[i] == b[i - |a|] && (a != [] ==> s[|a| - 1] != s[i]);
        assert At(b, i - |a| + 1) == At(s, i + 1);
      }
    }
  }

  lemma SplitLinked(next: Nexts, a: seq<nat>, b: seq<nat>)
    requires Linked(next, a + b) && Distinct(a + b)
    ensures Chained(next, a) && Linked(next, b) && Distinct(a) && Distinct(b)
    ensures a != [] ==> a[|a| - 1] in next && next[a[|a| - 1]] == At(b, 0)
  {
    SplitChain(next, a, b);
    SplitDistinct(a, b);
  }

  lemma SplitChain(next: Nexts, a: seq<nat>, b: seq<nat>)
    requires Linked(next, a + b)
    ensures Chained(next, a) && Linked(next, b)
    ensures a != [] ==> a[|a| - 1] in next && next[a[|a| - 1]] == At(b, 0)
  {
    var s := a + b;
    forall i | 0 <= i < |b|
      ensures b[i] in next && next[b[i]] == At(b, i + 1)
    {
      assert s[|a| + i] == b[i];
      assert At(s, |a| + i + 1) == At(b, i + 1);
    }
    forall i | 0 <= i < |a| - 1
      ensures a[i] in next && next[a[i]] == To(a[i + 1])
    {
      assert s[i] == a[i] && s[i + 1] == a[i + 1];
    }
    if a != [] {
      var k := |a| - 1;
      assert s[k] == a[k] && At(s, k + 1) == At(b, 0);
    }
  }

  lemma SplitDistinct(a: seq<nat>, b: seq<nat>)
    requires Distinct(a + b)
    ensures Distinct(a) && Distinct(b)
  {
    var s := a + b;
    assert forall i | 0 <= i < |a| :: s[i] == a[i];
    assert forall i | 0 <= i < |b| :: s[|a| + i] == b[i];
  }

  lemma TakenOut(next: Nexts, a: seq<nat>, x: nat, b: seq<nat>)
    requires Linked(next, a + [x] + b) && Distinct(a + [x] + b) && a != []
    ensures a[|a| - 1] in next && next[a[|a| - 1]] == To(x) && x in next && next[x] == At(b, 0)
    ensures Linked(Spliced(next, a, b), a + b) && Distinct(a + b)
  {
    hide Linked, Distinct, Chained;
    DistinctParts(a, [x], b);
    SplitLinked(next, a + [x], b);
    assert a + [x] + b == a + ([x] + b);
    SplitLinked(next, a, [x] + b);
    Splice(next, a, b);
  }

  lemma PutIn(next: Nexts, a: seq<nat>, e: nat, b: seq<nat>)
    requires Linked(next, a + b) && Distinct(a + b) && a != [] && e !in a + b
    ensures a[|a| - 1] in next && next[a[|a| - 1]] == At(b, 0)
    ensures var n := next[e := At(b, 0)][a[|a| - 1] := To(e)];
      Linked(n, a + [e] + b) && Distinct(a + [e] + b)
  {
    hide Linked, Distinct, Chained;
    SplitLinked(next, a, b);
    InsertedDistinct(a, e, b);
    ChainedApart(next, a, e, At(b, 0));
    Splice(next, [e], b);
    Splice(Spliced(next, [e], b), a, [e] + b);
    assert a + ([e] + b) == a + [e] + b;
  }

  lemma ChainedApart(next: Nexts, a: seq<nat>, e: nat, p: Ptr)
    requires Chained(next, a) && e !in a
    ensures Chained(next[e := p], a) && Chained(next, [e])
  {
    assert forall i | 0 <= i < |a| :: a[i] in a;
  }

  /** One step along a queue, and where it leads. */
  lemma Following(next: Nexts, s: seq<nat>, i: nat, k: nat)
    requires Linked(next, s) && Distinct(s) && i < |s| && k < |s|
    ensures s[i] in next && next[s[i]] == At(s, i + 1)
    ensures next[s[i]] == To(s[k]) <==> i + 1 == k
  {
  }

  lemma DistinctParts(a: seq<nat>, b: seq<nat>, c: seq<nat>)
    requires Distinct(a + b + c)
    ensures Distinct(a + c) && Distinct(a + b) && Distinct(b + c)
  {
    var s := a + b + c;
    assert forall i | 0 <= i < |a + c| :: (a + c)[i] == s[if i < |a| then i else i + |b|];
    assert forall i | 0 <= i < |a + b| :: (a + b)[i] == s[i];
    assert forall i | 0 <= i < |b + c| :: (b + c)[i] == s[|a| + i];
  }

  // ---------------------------------------------------------------- the macros

  class Memory {
    var next: Nexts
    var heads: map<nat, Head>

    /** Queue `h` holds `s`. */
    ghost predicate Is(h: nat, s: seq<nat>)
      reads this
    {
      h in heads && Holds(heads[h], next, h, s)
    }

    constructor ()
      ensures next == map[] && heads == map[]
    {
      next, heads := map[], map[];
    }

    /** Storing through a pointer to a pointer. */
    method Store(at: Slot, p: Ptr)
      requires at.FirstOf? ==> at.head in heads
      modifies this
      ensures next == if at.NextOf? then old(next)[at.elem := p] else old(next)
      ensures heads == if at.FirstOf? then old(heads)[at.head := old(heads)[at.head].(first := p)] else old(heads)
    {
      match at {
        case NextOf(e) => next := next[e := p];
        case FirstOf(h) => heads := heads[h := heads[h].(first := p)];
      }
    }

    /** `STAILQ_INIT`. */
    method Init(h: nat)
      modifies this`heads
      ensures Is(h, []) && heads == old(heads)[h := Head(Null, FirstOf(h))]
    {
      heads := heads[h := Head(Null, FirstOf(h))];
    }

    /** `STAILQ_INSERT_CHAIN_HEAD`: the chain `c` from `chead` to `ctail`. */
    method InsertChainHead(h: nat, chead: nat, ctail: nat, ghost c: seq<nat>, ghost s: seq<nat>)
      requires Is(h, s) && c != [] && chead == c[0] && ctail == c[|c| - 1]
      requires Chained(next, c) && Distinct(c + s)
      modifies this
      ensures Is(h, c + s) && heads == old(heads)[h := heads[h]] && Only(old(next), next, c)
    {
      Splice(next, c, s);
      next := next[ctail := heads[h].first];
      if next[ctail] == Null {
        heads := heads[h := heads[h].(last := NextOf(ctail))];
      }
      heads := heads[h := heads[h].(first := To(chead))];
    }

    /** `STAILQ_INSERT_HEAD`. */
    method InsertHead(h: nat, elm: nat, ghost s: seq<nat>)
      requires Is(h, s) && elm !in s
      modifies this
      ensures Is(h, [elm] + s) && heads == old(heads)[h := heads[h]] && Only(old(next), next, [elm])
    {
      Splice(next, [elm], s);
      next := next[elm := heads[h].first];
      if next[elm] == Null {
        heads := heads[h := heads[h].(last := NextOf(elm))];
      }
      heads := heads[h := heads[h].(first := To(elm))];
    }

    /** `STAILQ_INSERT_TAIL`. */
    method InsertTail(h: nat, elm: nat, ghost s: seq<nat>)
      requires Is(h, s) && elm !in s
      modifies this
      ensures Is(h, s + [elm]) && heads == old(heads)[h := heads[h]] && Only(old(next), next, s + [elm])
    {
      ghost var n := next[elm := Null];
      assert Chained(n, s) && Linked(n, [elm]);
      Splice(n, s, [elm]);
      next := next[elm := Null];
      Store(heads[h].last, To(elm));
      heads := heads[h := heads[h].(last := NextOf(elm))];
      assert next == Spliced(n, s, [elm]);
    }

    /** `STAILQ_INSERT_AFTER`, behind the last element of `a`. */
    method InsertAfter(h: nat, tqelm: nat, elm: nat, ghost a: seq<nat>, ghost b: seq<nat>)
      requires Is(h, a + b) && a != [] && tqelm == a[|a| - 1] && elm !in a + b
      modifies this
      ensures Is(h, a + [elm] + b) && heads == old(heads)[h := heads[h]] && Only(old(next), next, a + [elm])
    {
      PutIn(next, a, elm, b);
      hide Linked, Distinct;
      next := next[elm := next[tqelm]];
      if next[elm] == Null {
        heads := heads[h := heads[h].(last := NextOf(elm))];
      }
      next := next[tqelm := To(elm)];
    }

    /** `STAILQ_REMOVE_AFTER`: takes out `x`, which is behind the last element of `a`. */
    method RemoveAfter(h: nat, elm: nat, ghost a: seq<nat>, ghost x: nat, ghost b: seq<nat>)
      requires Is(h, a + [x] + b) && a != [] && elm == a[|a| - 1]
      modifies this
      ensures Is(h, a + b) && heads == old(heads)[h := heads[h]] && Only(old(next), next, a)
    {
      TakenOut(next, a, x, b);
      hide Linked, Distinct;
      var behind := next[elm];
      next := next[elm := next[behind.elem]];
      if next[elm] == Null {
        heads := heads[h := heads[h].(last := NextOf(elm))];
      }
    }

    /** `STAILQ_REMOVE_HEAD`. */
    method RemoveHead(h: nat, ghost s: seq<nat>)
      requires Is(h, s) && s != []
      modifies this`heads
      ensures Is(h, s[1..]) && heads == old(heads)[h := heads[h]]
    {
      LinkedTail(next, s);
      heads := heads[h := heads[h].(first := next[heads[h].first.elem])];
      if heads[h].first == Null {
        heads := heads[h := heads[h].(last := FirstOf(h))];
      }
    }

    /** The search of `STAILQ_REMOVE`, which ends because the element is in the queue. */
    method FindBefore(h: nat, elm: nat, ghost s: seq<nat>, ghost k: nat) returns (curelm: nat)
      requires Is(h, s) && 0 < k < |s| && s[k] == elm
      ensures curelm == s[k - 1]
    {
      hide Linked, Distinct;
      curelm := heads[h].first.elem;
      ghost var i := 0;
      Following(next, s, 0, k);
      while next[curelm] != To(elm)
        invariant i < k && curelm == s[i] && curelm in next
        invariant next[curelm] == At(s, i + 1) && (next[curelm] == To(elm) <==> i + 1 == k)
        decreases k - i
      {
        curelm := next[curelm].elem;
        i := i + 1;
        Following(next, s, i, k);
      }
    }

    /** `STAILQ_REMOVE`. */
    method Remove(h: nat, elm: nat, ghost s: seq<nat>, ghost k: nat)
      requires Is(h, s) && k < |s| && s[k] == elm
      modifies this
      ensures Is(h, s[..k] + s[k + 1..]) && heads == old(heads)[h := heads[h]] && Only(old(next), next, s[..k])
    {
      hide Linked, Distinct, LastSlot;
      FirstIs(s, k);
      if heads[h].first == To(elm) {
        RemoveHead(h, s);
      } else {
        var curelm := FindBefore(h, elm, s, k);
        RemoveAfter(h, curelm, s[..k], elm, s[k + 1..]);
      }
    }

    /** `STAILQ_CONCAT`: moves the second queue behind the first. */
    method Concat(h1: nat, h2: nat, ghost s: seq<nat>, ghost t: seq<nat>)
      requires h1 != h2 && Is(h1, s) && Is(h2, t) && Distinct(s + t)
      modifies this
      ensures Is(h1, s + t) && Is(h2, [])
      ensures heads == old(heads)[h1 := heads[h1]][h2 := heads[h2]] && Only(old(next), next, s)
    {
      Splice(next, s, t);
      if heads[h2].first != Null {
        Store(heads[h1].last, heads[h2].first);
        heads := heads[h1 := heads[h1].(last := heads[h2].last)];
        Init(h2);
        assert next == Spliced(old(next), s, t);
      } else {
        assert s + t == s;
      }
    }

    /** `STAILQ_SWAP`. */
    method Swap(h1: nat, h2: nat, ghost s: seq<nat>, ghost t: seq<nat>)
      requires h1 != h2 && Is(h1, s) && Is(h2, t)
      modifies this`heads
      ensures Is(h1, t) && Is(h2, s) && heads == old(heads)[h1 := heads[h1]][h2 := heads[h2]]
    {
      var swapped := heads[h1];
      heads := heads[h1 := heads[h2]];
      heads := heads[h2 := swapped];
      if heads[h1].first == Null {
        heads := heads[h1 := heads[h1].(last := FirstOf(h1))];
      }
      if heads[h2].first == Null {
        heads := heads[h2 := heads[h2].(last := FirstOf(h2))];
      }
    }
  }

  lemma FirstIs(s: seq<nat>, k: nat)
    requires Distinct(s) && k < |s|
    ensures At(s, 0) == To(s[k]) <==> k == 0
    ensures s == s[..k] + [s[k]] + s[k + 1..] && (k == 0 ==> s[..k] + s[k + 1..] == s[1..])
    ensures k > 0 ==> s[..k] != [] && s[..k][|s[..k]| - 1] == s[k - 1]
  {
  }

  lemma InsertedDistinct(a: seq<nat>, e: nat, b: seq<nat>)
    requires Distinct(a + b) && e !in a + b
    ensures Distinct(a + ([e] + b)) && Distinct([e] + b) && e !in a
  {
    var s, t := a + b, a + ([e] + b);
    forall i | 0 <= i < |t|
      ensures t[i] == if i == |a| then e else s[Before(i, |a|)]
    {
    }
    forall i, j | 0 <= i < j < |t|
      ensures t[i] != t[j]
    {
      assert i != |a| ==> s[Before(i, |a|)] in s;
      assert j != |a| ==> s[Before(j, |a|)] in s;
    }
    forall i, j | 0 <= i < j < |[e] + b|
      ensures ([e] + b)[i] != ([e] + b)[j]
    {
      assert t[|a| + i] == ([e] + b)[i] && t[|a| + j] == ([e] + b)[j];
    }
  }

  /** Where an element was before one was put in at `k`. */
  function Before(i: nat, k: nat): nat {
    if i < k then i else if i == k then 0 else i - 1
  }
}
