/**
  The linked list of the list benchmark: in-place bottom-up mergesort, reversal, and removal of an
  item with its undo. Nodes and their data items are heap objects whose fields change in place.
 */
module CoreList {
  import opened StableMerge

  class ListData {
    var data16: nat
    var idx: int

    constructor (data16: nat, idx: int)
      ensures this.data16 == data16 && this.idx == idx
    {
      this.data16, this.idx := data16, idx;
    }
  }

  class ListHead {
    var next: ListHead?
    var info: ListData

    constructor (info: ListData)
      ensures this.info == info && next == null
    {
      this.info, next := info, null;
    }
  }

  function NodeAt(s: seq<ListHead>, k: nat): ListHead? {
    if k < |s| then s[k] else null
  }

  ghost predicate Distinct(s: seq<ListHead>) {
    forall j, k | 0 <= j < k < |s| :: s[j] != s[k]
  }

  /** From index k on, every node still points to its successor in s. */
  ghost predicate LinkedFrom(s: seq<ListHead>, k: nat)
    reads set x | x in s
  {
    forall j | k <= j < |s| :: s[j].next == NodeAt(s, j + 1)
  }

  /** head is an acyclic list of exactly the nodes s, in this order. */
  ghost predicate ListIs(head: ListHead?, s: seq<ListHead>)
    reads set x | x in s
  {
    head == NodeAt(s, 0) && Distinct(s) && LinkedFrom(s, 0)
  }

  ghost predicate Keyed(s: seq<ListHead>, infos: set<ListData>, keys: Keys<ListHead>)
    reads (set x | x in s)`info, infos`idx
  {
    forall x | x in s :: x.info in infos && x in keys && keys[x] == x.info.idx
  }

  /** The low byte is rebuilt from the high byte. */
  function Regen(d: nat): nat { d / 0x100 * 0x100 + d / 0x100 % 0x100 }

  /** Both bytes of a rebuilt item are its old high byte, so rebuilding again changes nothing. */
  lemma RegenBytes(hi: nat, lo: nat)
    requires hi < 0x100 && lo < 0x100
    ensures Regen(0x100 * hi + lo) == 0x101 * hi == Regen(Regen(0x100 * hi + lo))
  {
    assert (0x100 * hi + lo) / 0x100 == hi;
  }

  /** Data items are as before, or have been rebuilt. */
  ghost predicate DataFrom(before: map<ListData, nat>, regen: bool)
    reads before.Keys`data16
  {
    forall d | d in before.Keys :: d.data16 == before[d] || (regen && d.data16 == Regen(before[d]))
  }

  lemma RegenTwice(d: nat)
    requires d < 0x1_0000
    ensures Regen(Regen(d)) == Regen(d) < 0x1_0000
  {
  }

  ghost predicate Shorts(before: map<ListData, nat>) {
    forall d | d in before :: before[d] < 0x1_0000
  }

  /** cmp_idx: compare by index; without a result record, rebuild the data of both items. */
  method CmpIdx(a: ListData, b: ListData, regen: bool, ghost before: map<ListData, nat>) returns (r: int)
    requires a in before && b in before && Shorts(before) && DataFrom(before, regen)
    modifies a`data16, b`data16
    ensures r == a.idx - b.idx
    ensures DataFrom(before, regen)
    ensures regen ==> a.data16 == Regen(before[a]) && b.data16 == Regen(before[b])
  {
    hide Regen;
    RegenTwice(before[a]);
    RegenTwice(before[b]);
    if regen {
      a.data16 := Regen(a.data16);
      b.data16 := Regen(b.data16);
    }
    r := a.idx - b.idx;
  }

  /** Step `insize` places along from p. */
  method StepAlong(p: ListHead, insize: nat, ghost s: seq<ListHead>, ghost at: nat) returns (q: ListHead?, psize: nat)
    requires insize > 0 && at < |s| && p == s[at] && LinkedFrom(s, at)
    ensures psize == Min(insize, |s| - at) && q == NodeAt(s, at + psize)
  {
    q, psize := p, 0;
    var i := 0;
    while i < insize
      invariant 0 <= i <= insize && i == psize <= |s| - at
      invariant q == NodeAt(s, at + psize) && q != null
    {
      psize := psize + 1;
      q := q.next;
      if q == null {
        break;
      }
      i := i + 1;
    }
  }

  /** What has been linked together so far. */
  ghost predicate Built(head: ListHead?, tail: ListHead?, out: seq<ListHead>)
    reads set x | x in out
  {
    && (out == [] ==> head == null && tail == null)
    && (out != [] ==> head == out[0] && tail == out[|out| - 1])
    && (forall k | 0 <= k < |out| - 1 :: out[k].next == out[k + 1])
  }

  /** Positions whose nodes are not yet taken: the rest of the left run, and all from iq on. */
  predicate Pending(ip: nat, mid: nat, iq: nat, k: nat) { ip <= k < mid || iq <= k }

  /** Nodes not yet taken still point to their successors. */
  ghost predicate Untouched(s: seq<ListHead>, ip: nat, mid: nat, iq: nat)
    reads set x | x in s
  {
    forall k | 0 <= k < |s| && Pending(ip, mid, iq, k) :: s[k].next == NodeAt(s, k + 1)
  }

  /** Nodes already linked are not among those. */
  ghost predicate Apart(out: seq<ListHead>, s: seq<ListHead>, ip: nat, mid: nat, iq: nat) {
    forall k | 0 <= k < |s| && Pending(ip, mid, iq, k) :: s[k] !in out
  }

  ghost predicate From(out: seq<ListHead>, s: seq<ListHead>) { forall x | x in out :: x in s }

  /** Add the next element to the merged list. */
  method Append(head: ListHead?, tail: ListHead?, e: ListHead, ghost out: seq<ListHead>, ghost s: seq<ListHead>)
      returns (head': ListHead)
    requires Built(head, tail, out) && e !in out && Distinct(out) && From(out, s)
    modifies (if tail == null then {} else {tail})`next
    ensures Built(head', e, out + [e]) && Distinct(out + [e])
    ensures tail != null ==> tail in out
  {
    if tail != null {
      tail.next := e;
      head' := head;
    } else {
      head' := e;
    }
  }

  /** A merge under way: s[ip..mid] and s[iq..] are still to come. */
  ghost predicate Merging(s: seq<ListHead>, ip: nat, mid: nat, iq: nat, out: seq<ListHead>,
                          head: ListHead?, tail: ListHead?)
    reads set x | x in s
    reads set x | x in out
  {
    && ip <= mid <= iq <= |s| && Distinct(s) && Distinct(out) && From(out, s)
    && Untouched(s, ip, mid, iq) && Apart(out, s, ip, mid, iq) && Built(head, tail, out)
  }

  /** e comes from p. */
  method TakeLeft(head: ListHead?, tail: ListHead?, p: ListHead,
                  ghost s: seq<ListHead>, ghost ip: nat, ghost mid: nat, ghost iq: nat, ghost out: seq<ListHead>)
      returns (head': ListHead, p': ListHead?)
    requires Merging(s, ip, mid, iq, out, head, tail) && ip < mid && p == s[ip]
    modifies (set x | x in s)`next
    ensures p' == NodeAt(s, ip + 1) && Merging(s, ip + 1, mid, iq, out + [p], head', p)
  {
    assert Pending(ip, mid, iq, ip);
    p' := p.next;
    head' := Append(head, tail, p, out, s);
  }

  /** e comes from q. */
  method TakeRight(head: ListHead?, tail: ListHead?, q: ListHead,
                   ghost s: seq<ListHead>, ghost ip: nat, ghost mid: nat, ghost iq: nat, ghost out: seq<ListHead>)
      returns (head': ListHead, q': ListHead?)
    requires Merging(s, ip, mid, iq, out, head, tail) && iq < |s| && q == s[iq]
    modifies (set x | x in s)`next
    ensures q' == NodeAt(s, iq + 1) && Merging(s, ip, mid, iq + 1, out + [q], head', q)
  {
    assert Pending(ip, mid, iq, iq);
    q' := q.next;
    head' := Append(head, tail, q, out, s);
  }

  /** Decide whether the next element of the merge comes from p: q must be strictly smaller to go first. */
  method FromLeft(p: ListHead?, q: ListHead?, psize: nat, qsize: nat, regen: bool,
                  ghost s: seq<ListHead>, ghost ip: nat, ghost iq: nat,
                  ghost keys: Keys<ListHead>, ghost before: map<ListData, nat>)
      returns (left: bool)
    requires p == NodeAt(s, ip) && q == NodeAt(s, iq) && (psize > 0 ==> ip < |s|)
    requires psize > 0 || (qsize > 0 && q != null)
    requires Keyed(s, before.Keys, keys) && Shorts(before) && DataFrom(before, regen)
    modifies before.Keys`data16
    ensures DataFrom(before, regen)
    ensures left ==> psize > 0 && (qsize == 0 || q == null || Key(keys, s[ip]) <= Key(keys, s[iq]))
    ensures !left ==> qsize > 0 && q != null && (psize == 0 || Key(keys, s[ip]) > Key(keys, s[iq]))
  {
    if psize == 0 {
      left := false;
    } else if qsize == 0 || q == null {
      left := true;
    } else {
      var c := CmpIdx(p.info, q.info, regen, before);
      left := c <= 0;
    }
  }

  /** What is still to be merged. */
  function Rest(s: seq<ListHead>, ip: nat, mid: nat, iq: nat, end: nat, keys: Keys<ListHead>): seq<ListHead>
    requires ip <= mid <= iq <= end <= |s|
  {
    Merge(s[ip..mid], s[iq..end], keys)
  }

  lemma RestLeft(s: seq<ListHead>, ip: nat, mid: nat, iq: nat, end: nat, keys: Keys<ListHead>, out: seq<ListHead>)
    requires ip < mid <= iq <= end <= |s| && (iq == end || Key(keys, s[ip]) <= Key(keys, s[iq]))
    ensures out + Rest(s, ip, mid, iq, end, keys) == (out + [s[ip]]) + Rest(s, ip + 1, mid, iq, end, keys)
  {
    hide Merge;
    MergeTakesLeft(s, ip, mid, iq, end, keys);
  }

  lemma RestRight(s: seq<ListHead>, ip: nat, mid: nat, iq: nat, end: nat, keys: Keys<ListHead>, out: seq<ListHead>)
    requires ip <= mid <= iq < end <= |s| && (ip == mid || Key(keys, s[ip]) > Key(keys, s[iq]))
    ensures out + Rest(s, ip, mid, iq, end, keys) == (out + [s[iq]]) + Rest(s, ip, mid, iq + 1, end, keys)
  {
    hide Merge;
    MergeTakesRight(s, ip, mid, iq, end, keys);
  }

  lemma RestNone(s: seq<ListHead>, mid: nat, end: nat, keys: Keys<ListHead>, out: seq<ListHead>)
    requires mid <= end <= |s|
    ensures out + Rest(s, mid, mid, end, end, keys) == out
  {
  }

  /** A merge of s[at..mid] and s[mid..end] under way; psize and qsize nodes at most are left of each. */
  ghost predicate Underway(p: ListHead?, q: ListHead?, psize: nat, qsize: nat, insize: nat,
                           s: seq<ListHead>, ip: nat, mid: nat, iq: nat, end: nat)
  {
    && ip <= mid <= iq <= end <= |s| && end == Min(mid + insize, |s|)
    && psize == mid - ip && qsize == insize - (iq - mid)
    && p == NodeAt(s, ip) && q == NodeAt(s, iq)
  }

  /** Take one node, from the left run unless the right one is strictly smaller. */
  method TakeNext(p: ListHead?, q: ListHead?, psize: nat, qsize: nat, head: ListHead?, tail: ListHead?, regen: bool,
                  ghost insize: nat, ghost s: seq<ListHead>, ghost ip: nat, ghost mid: nat, ghost iq: nat,
                  ghost end: nat, ghost out: seq<ListHead>,
                  ghost keys: Keys<ListHead>, ghost before: map<ListData, nat>)
      returns (p': ListHead?, q': ListHead?, psize': nat, qsize': nat, head': ListHead, e: ListHead,
               ghost ip': nat, ghost iq': nat)
    requires Underway(p, q, psize, qsize, insize, s, ip, mid, iq, end) && (psize > 0 || (qsize > 0 && q != null))
    requires Merging(s, ip, mid, iq, out, head, tail)
    requires Keyed(s, before.Keys, keys) && Shorts(before) && DataFrom(before, regen)
    modifies (set x | x in s)`next, before.Keys`data16
    ensures Underway(p', q', psize', qsize', insize, s, ip', mid, iq', end) && psize' + qsize' < psize + qsize
    ensures Merging(s, ip', mid, iq', out + [e], head', e)
    ensures (out + [e]) + Rest(s, ip', mid, iq', end, keys) == out + Rest(s, ip, mid, iq, end, keys)
    ensures DataFrom(before, regen)
  {
    hide Rest, Merging, DataFrom, Keyed, Shorts, Key;
    p', q', psize', qsize', ip', iq' := p, q, psize, qsize, ip, iq;
    var left := FromLeft(p, q, psize, qsize, regen, s, ip, iq, keys, before);
    if left {
      RestLeft(s, ip, mid, iq, end, keys, out);
      e := p;
      head', p' := TakeLeft(head, tail, e, s, ip, mid, iq, out);
      psize', ip' := psize - 1, ip + 1;
    } else {
      RestRight(s, ip, mid, iq, end, keys, out);
      e := q;
      head', q' := TakeRight(head, tail, e, s, ip, mid, iq, out);
      qsize', iq' := qsize - 1, iq + 1;
    }
  }

  /** Merge the run of psize nodes at p with the run of at most insize nodes at q onto the list so far. */
  method MergeRuns(p0: ListHead, q0: ListHead?, psize0: nat, insize: nat, head0: ListHead?, tail0: ListHead?,
                   regen: bool, ghost s: seq<ListHead>, ghost at: nat, ghost out0: seq<ListHead>,
                   ghost keys: Keys<ListHead>, ghost before: map<ListData, nat>)
      returns (next: ListHead?, head: ListHead?, tail: ListHead?, ghost out: seq<ListHead>)
    requires insize > 0 && at < |s| && p0 == s[at] && psize0 == Min(insize, |s| - at) && q0 == NodeAt(s, at + psize0)
    requires Merging(s, at, at + psize0, at + psize0, out0, head0, tail0)
    requires Keyed(s, before.Keys, keys) && Shorts(before) && DataFrom(before, regen)
    modifies (set x | x in s)`next, before.Keys`data16
    ensures
      var mid, end := at + psize0, Min(at + 2 * insize, |s|);
      && next == NodeAt(s, end) && mid <= end
      && out == out0 + Rest(s, at, mid, mid, end, keys)
      && Merging(s, mid, mid, end, out, head, tail)
    ensures DataFrom(before, regen)
  {
    hide Rest, Merging, DataFrom, Keyed, Shorts, Underway;
    ghost var mid: nat, end: nat := at + psize0, Min(at + 2 * insize, |s|);
    ghost var ip: nat, iq: nat := at, mid;
    var p: ListHead?, q, psize, qsize := p0, q0, psize0, insize;
    head, tail, out := head0, tail0, out0;
    UnderwayStarts(p, q, psize, insize, s, at);
    while psize > 0 || (qsize > 0 && q != null)
      invariant Underway(p, q, psize, qsize, insize, s, ip, mid, iq, end) && ip <= mid <= iq <= end <= |s|
      invariant Merging(s, ip, mid, iq, out, head, tail)
      invariant out + Rest(s, ip, mid, iq, end, keys) == out0 + Rest(s, at, mid, mid, end, keys)
      invariant Keyed(s, before.Keys, keys) && DataFrom(before, regen)
      decreases psize + qsize
    {
      var e;
      p, q, psize, qsize, head, e, ip, iq :=
        TakeNext(p, q, psize, qsize, head, tail, regen, insize, s, ip, mid, iq, end, out, keys, before);
      tail, out := e, out + [e];
      UnderwayOrder(p, q, psize, qsize, insize, s, ip, mid, iq, end);
    }
    UnderwayEnds(p, q, psize, qsize, insize, s, ip, mid, iq, end);
    RestNone(s, mid, end, keys, out);
    next := q;
  }

  lemma UnderwayStarts(p: ListHead, q: ListHead?, psize: nat, insize: nat, s: seq<ListHead>, at: nat)
    requires insize > 0 && at < |s| && p == s[at] && psize == Min(insize, |s| - at) && q == NodeAt(s, at + psize)
    ensures Underway(p, q, psize, insize, insize, s, at, at + psize, at + psize, Min(at + 2 * insize, |s|))
  {
  }

  lemma UnderwayOrder(p: ListHead?, q: ListHead?, psize: nat, qsize: nat, insize: nat,
                      s: seq<ListHead>, ip: nat, mid: nat, iq: nat, end: nat)
    requires Underway(p, q, psize, qsize, insize, s, ip, mid, iq, end)
    ensures ip <= mid <= iq <= end <= |s|
  {
  }

  lemma UnderwayEnds(p: ListHead?, q: ListHead?, psize: nat, qsize: nat, insize: nat,
                     s: seq<ListHead>, ip: nat, mid: nat, iq: nat, end: nat)
    requires Underway(p, q, psize, qsize, insize, s, ip, mid, iq, end) && psize == 0 && (qsize == 0 || q == null)
    ensures ip == mid && iq == end && q == NodeAt(s, end)
  {
  }

  lemma PassSplit(s: seq<ListHead>, at: nat, n: nat, keys: Keys<ListHead>)
    requires n > 0 && at < |s|
    ensures
      var mid, end := at + Min(n, |s| - at), Min(at + 2 * n, |s|);
      mid <= end && Pass(s[at..], n, keys) == Rest(s, at, mid, mid, end, keys) + Pass(s[end..], n, keys)
  {
    hide Merge;
    var mid, end := at + Min(n, |s| - at), Min(at + 2 * n, |s|);
    var r := s[at..];
    assert r[..Min(n, |r|)] == s[at..mid] && r[Min(n, |r|)..Min(2 * n, |r|)] == s[mid..end];
    assert r[Min(2 * n, |r|)..] == s[end..];
  }

  /** Find the two runs at p and merge them onto the list so far. */
  method MergeAt(p0: ListHead, insize: nat, head0: ListHead?, tail0: ListHead?, regen: bool,
                 ghost s: seq<ListHead>, ghost at: nat, ghost out0: seq<ListHead>,
                 ghost keys: Keys<ListHead>, ghost before: map<ListData, nat>)
      returns (p: ListHead?, head: ListHead?, tail: ListHead?, ghost out: seq<ListHead>)
    requires insize > 0 && at < |s| && p0 == s[at] && Merging(s, at, at, at, out0, head0, tail0)
    requires Keyed(s, before.Keys, keys) && Shorts(before) && DataFrom(before, regen)
    modifies (set x | x in s)`next, before.Keys`data16
    ensures
      var end := Min(at + 2 * insize, |s|);
      && p == NodeAt(s, end) && Merging(s, end, end, end, out, head, tail)
      && out + Pass(s[end..], insize, keys) == out0 + Pass(s[at..], insize, keys)
    ensures DataFrom(before, regen)
  {
    hide Rest, Pass, DataFrom, Keyed, Shorts, Merging, LinkedFrom;
    StillLinked(s, at, out0, head0, tail0);
    var q, psize := StepAlong(p0, insize, s, at);
    RunStarts(s, at, at + psize, out0, head0, tail0);
    PassSplit(s, at, insize, keys);
    p, head, tail, out := MergeRuns(p0, q, psize, insize, head0, tail0, regen, s, at, out0, keys, before);
    RunEnds(s, at + psize, Min(at + 2 * insize, |s|), out, head, tail);
  }

  /** One pass: merge the runs of the list two by two. */
  method MergePass(list: ListHead, insize: nat, regen: bool,
                   ghost s: seq<ListHead>, ghost keys: Keys<ListHead>, ghost before: map<ListData, nat>)
      returns (head: ListHead?, nmerges: nat)
    requires insize > 0 && s != [] && ListIs(list, s)
    requires Keyed(s, before.Keys, keys) && Shorts(before) && DataFrom(before, regen)
    modifies (set x | x in s)`next, before.Keys`data16
    ensures ListIs(head, Pass(s, insize, keys)) && From(Pass(s, insize, keys), s)
    ensures nmerges <= 1 <==> |s| <= 2 * insize
    ensures DataFrom(before, regen)
  {
    hide Pass, DataFrom, Keyed, Shorts, Merging, LinkedFrom, Distinct, From;
    PassStarts(s);
    var p: ListHead? := list;
    var tail: ListHead?;
    head, tail, nmerges := null, null, 0;
    ghost var at: nat, out: seq<ListHead> := 0, [];
    PassWhole(s, insize, keys);
    while p != null
      invariant at <= |s| && p == NodeAt(s, at)
      invariant Merging(s, at, at, at, out, head, tail)
      invariant out + Pass(s[at..], insize, keys) == Pass(s, insize, keys)
      invariant Keyed(s, before.Keys, keys) && DataFrom(before, regen)
      invariant (at == 0 <==> nmerges == 0) && (nmerges == 1 ==> at == Min(2 * insize, |s|))
      invariant nmerges > 1 ==> |s| > 2 * insize
      decreases |s| - at
    {
      nmerges := nmerges + 1;
      p, head, tail, out := MergeAt(p, insize, head, tail, regen, s, at, out, keys, before);
      at := Min(at + 2 * insize, |s|);
    }
    PassDone(s, insize, keys, out);
    Terminate(head, tail, s, out);
  }

  lemma PassWhole(s: seq<ListHead>, n: nat, keys: Keys<ListHead>)
    requires n > 0
    ensures [] + Pass(s[0..], n, keys) == Pass(s, n, keys)
  {
    assert s[0..] == s;
  }

  lemma PassDone(s: seq<ListHead>, n: nat, keys: Keys<ListHead>, out: seq<ListHead>)
    requires n > 0 && out + Pass(s[|s|..], n, keys) == Pass(s, n, keys)
    ensures out == Pass(s, n, keys) && |out| == |s|
  {
    assert s[|s|..] == [];
    assert out + [] == out;
  }

  /** End the list at its last node. */
  method Terminate(head: ListHead?, tail: ListHead?, ghost s: seq<ListHead>, ghost out: seq<ListHead>)
    requires Merging(s, |s|, |s|, |s|, out, head, tail) && out != []
    modifies (set x | x in s)`next
    ensures ListIs(head, out) && From(out, s)
  {
    assert tail in s by {
      assert out[|out| - 1] in out;
    }
    tail.next := null;
  }

  lemma PassStarts(s: seq<ListHead>)
    requires Distinct(s) && LinkedFrom(s, 0)
    ensures Merging(s, 0, 0, 0, [], null, null)
  {
  }

  lemma StillLinked(s: seq<ListHead>, at: nat, out: seq<ListHead>, head: ListHead?, tail: ListHead?)
    requires at <= |s| && Merging(s, at, at, at, out, head, tail)
    ensures LinkedFrom(s, at)
  {
    assert forall k :: at <= k ==> Pending(at, at, at, k);
  }

  lemma RunStarts(s: seq<ListHead>, at: nat, mid: nat, out: seq<ListHead>, head: ListHead?, tail: ListHead?)
    requires at <= mid <= |s| && Merging(s, at, at, at, out, head, tail)
    ensures Merging(s, at, mid, mid, out, head, tail)
  {
    assert forall k :: Pending(at, mid, mid, k) ==> Pending(at, at, at, k);
  }

  lemma RunEnds(s: seq<ListHead>, mid: nat, end: nat, out: seq<ListHead>, head: ListHead?, tail: ListHead?)
    requires mid <= end <= |s| && Merging(s, mid, mid, end, out, head, tail)
    ensures Merging(s, end, end, end, out, head, tail)
  {
    assert forall k :: Pending(end, end, end, k) ==> Pending(mid, mid, end, k);
  }

  lemma Initially(s: seq<ListHead>, before: map<ListData, nat>, regen: bool)
    requires forall d | d in before :: d.data16 == before[d]
    ensures DataFrom(before, regen) && From(s, s)
  {
  }

  lemma Subset(t: seq<ListHead>, s: seq<ListHead>, keys: Keys<ListHead>, infos: set<ListData>)
    requires From(t, s) && Keyed(s, infos, keys)
    ensures Keyed(t, infos, keys) && (set x | x in t) <= (set x | x in s)
  {
  }

  lemma Transitive(u: seq<ListHead>, t: seq<ListHead>, s: seq<ListHead>)
    requires From(u, t) && From(t, s)
    ensures From(u, s)
  {
  }

  /**
    Sort a non-empty list in place. The result is a list of the same nodes, sorted by index, in the
    only order that leaves nodes of equal index as they were.
   */
  method MergeSort(list0: ListHead, regen: bool,
                   ghost s: seq<ListHead>, ghost keys: Keys<ListHead>, ghost before: map<ListData, nat>)
      returns (list: ListHead?)
    requires s != [] && ListIs(list0, s) && Keyed(s, before.Keys, keys) && Shorts(before)
    requires forall d | d in before :: d.data16 == before[d]
    modifies (set x | x in s)`next, before.Keys`data16
    ensures ListIs(list, Sort(s, 1, keys))
    ensures Sorted(Sort(s, 1, keys), keys) && multiset(Sort(s, 1, keys)) == multiset(s)
    ensures forall k :: Only(Sort(s, 1, keys), k, keys) == Only(s, k, keys)
    ensures DataFrom(before, regen)
  {
    hide Pass, Only, Sorted, Key, LinkedFrom, Distinct, Keyed, DataFrom, Shorts, Runs;
    Initially(s, before, regen);
    SingletonRuns(s, keys);
    SortCorrect(s, 1, keys);
    SamePermutation(Sort(s, 1, keys), s, keys);
    var insize := 1;
    list := list0;
    ghost var t := s;
    while true
      invariant insize > 0 && t != [] && |t| == |s| && From(t, s) && ListIs(list, t)
      invariant insize == 1 || insize < |s|
      invariant Sort(t, insize, keys) == Sort(s, 1, keys)
      invariant Keyed(s, before.Keys, keys) && DataFrom(before, regen)
      decreases |s| - insize
    {
      Subset(t, s, keys, before.Keys);
      var nmerges;
      list, nmerges := MergePass(list, insize, regen, t, keys, before);
      Transitive(Pass(t, insize, keys), t, s);
      t := Pass(t, insize, keys);
      if nmerges <= 1 {
        return;
      }
      insize := insize * 2;
    }
  }

  // ---------------------------------------------------------------- reversal, removal and its undo

  function Reversed(s: seq<ListHead>): (r: seq<ListHead>)
    ensures |r| == |s| && forall k | 0 <= k < |s| :: r[k] == s[|s| - 1 - k]
  {
    if s == [] then [] else Reversed(s[1..]) + [s[0]]
  }

  function Previous(s: seq<ListHead>, k: nat): ListHead?
    requires k <= |s|
  {
    if k == 0 then null else s[k - 1]
  }

  /** The nodes below i point back. */
  ghost predicate TurnedTo(s: seq<ListHead>, i: nat)
    reads set x | x in s
  {
    i <= |s| && forall k | 0 <= k < i :: s[k].next == Previous(s, k)
  }

  lemma ReversedList(s: seq<ListHead>)
    requires Distinct(s) && TurnedTo(s, |s|)
    ensures ListIs(Previous(s, |s|), Reversed(s))
  {
    var r := Reversed(s);
    forall k | 0 <= k < |r|
      ensures r[k].next == NodeAt(r, k + 1)
    {
      assert s[|s| - 1 - k].next == Previous(s, |s| - 1 - k);
    }
  }

  /** Point one node back, and hand on the rest of the list. */
  method Turn(list: ListHead, next: ListHead?, ghost s: seq<ListHead>, ghost i: nat) returns (tmp: ListHead?)
    requires Distinct(s) && i < |s| && list == s[i] && next == Previous(s, i) && LinkedFrom(s, i) && TurnedTo(s, i)
    modifies list`next
    ensures tmp == NodeAt(s, i + 1) && LinkedFrom(s, i + 1) && TurnedTo(s, i + 1)
  {
    hide Previous;
    tmp := list.next;
    list.next := next;
  }

  /** Turn every next pointer round. */
  method Reverse(list0: ListHead?, ghost s: seq<ListHead>) returns (next: ListHead?)
    requires ListIs(list0, s)
    modifies (set x | x in s)`next
    ensures ListIs(next, Reversed(s))
  {
    var list := list0;
    next := null;
    ghost var i: nat := 0;
    while list != null
      invariant i <= |s| && list == NodeAt(s, i) && next == Previous(s, i)
      invariant LinkedFrom(s, i) && TurnedTo(s, i)
      decreases |s| - i
    {
      hide LinkedFrom, TurnedTo, Distinct, Previous;
      PreviousOf(s, i + 1);
      var tmp := Turn(list, next, s, i);
      next := list;
      list := tmp;
      i := i + 1;
    }
    ReversedList(s);
  }

  lemma PreviousOf(s: seq<ListHead>, i: nat)
    requires 0 < i <= |s|
    ensures Previous(s, i) == s[i - 1]
  {
  }

  ghost predicate Linked(s: seq<ListHead>)
    reads set x | x in s
  {
    Distinct(s) && LinkedFrom(s, 0)
  }

  ghost function Infos(s: seq<ListHead>): (r: seq<ListData>)
    reads set x | x in s
    ensures |r| == |s|
  {
    seq(|s|, k requires 0 <= k < |s| reads set x | x in s => s[k].info)
  }

  function Without(s: seq<ListHead>, i: nat): seq<ListHead>
    requires i + 1 < |s|
  {
    s[..i + 1] + s[i + 2..]
  }

  lemma WithoutAt(s: seq<ListHead>, i: nat)
    requires Distinct(s) && i + 1 < |s|
    ensures Distinct(Without(s, i)) && |Without(s, i)| == |s| - 1
    ensures forall k | 0 <= k < |s| - 1 :: Without(s, i)[k] == if k <= i then s[k] else s[k + 1]
    ensures forall k | 0 <= k < |s| && k != i && k != i + 1 :: s[k] != s[i] && s[k] != s[i + 1]
  {
  }

  /** Once item i skips its successor, the others make up the list. */
  lemma RemovedLinked(s: seq<ListHead>, i: nat)
    requires Distinct(s) && i + 1 < |s| && s[i].next == NodeAt(s, i + 2)
    requires forall k | 0 <= k < |s| && k != i && k != i + 1 :: s[k].next == NodeAt(s, k + 1)
    ensures Linked(Without(s, i))
  {
    WithoutAt(s, i);
    hide Without, Distinct;
    var t := Without(s, i);
    forall k | 0 <= k < |t|
      ensures t[k].next == NodeAt(t, k + 1)
    {
      assert t[k] == if k <= i then s[k] else s[k + 1];
    }
  }

  lemma RemovedInfos(s: seq<ListHead>, i: nat, infos: seq<ListData>)
    requires Distinct(s) && i + 1 < |s| == |infos| && s[i].info == infos[i + 1]
    requires forall k | 0 <= k < |s| && k != i && k != i + 1 :: s[k].info == infos[k]
    ensures Infos(Without(s, i)) == infos[..i] + infos[i + 1..]
  {
    WithoutAt(s, i);
    hide Without, Distinct;
  }

  /** Remove item's data from the list; the node that leaves is the one behind it. */
  method Remove(item: ListHead, ghost s: seq<ListHead>, ghost i: nat) returns (ret: ListHead)
    requires Linked(s) && i + 1 < |s| && item == s[i]
    modifies s[i], s[i + 1]
    ensures ret == s[i + 1] && ret.next == null && ret.info == old(s[i].info)
    ensures Linked(Without(s, i))
    ensures Infos(Without(s, i)) == old(Infos(s))[..i] + old(Infos(s))[i + 1..]
  {
    WithoutAt(s, i);
    assert item.next == NodeAt(s, i + 1);
    assert s[i + 1].next == NodeAt(s, i + 2);
    hide Without, Distinct, Linked;
    ghost var infos := Infos(s);
    ret := item.next;
    var tmp := item.info;
    item.info := ret.info;
    ret.info := tmp;
    item.next := item.next.next;
    ret.next := null;
    RemovedLinked(s, i);
    RemovedInfos(s, i, infos);
  }

  function With(s: seq<ListHead>, i: nat, x: ListHead): seq<ListHead>
    requires i < |s|
  {
    s[..i + 1] + [x] + s[i + 1..]
  }

  lemma WithAt(s: seq<ListHead>, i: nat, x: ListHead)
    requires Distinct(s) && i < |s| && x !in s
    ensures Distinct(With(s, i, x)) && |With(s, i, x)| == |s| + 1
    ensures forall k | 0 <= k <= |s| :: With(s, i, x)[k] == if k <= i then s[k] else if k == i + 1 then x else s[k - 1]
    ensures forall k | 0 <= k < |s| && k != i :: s[k] != x && s[k] != s[i]
  {
  }

  /** Once item i points to x and x to what followed, x is in the list. */
  lemma UndoneLinked(s: seq<ListHead>, i: nat, x: ListHead)
    requires Distinct(s) && i < |s| && x !in s && s[i].next == x && x.next == NodeAt(s, i + 1)
    requires forall k | 0 <= k < |s| && k != i :: s[k].next == NodeAt(s, k + 1)
    ensures Linked(With(s, i, x))
  {
    WithAt(s, i, x);
    hide With, Distinct;
    var t := With(s, i, x);
    forall k | 0 <= k < |t|
      ensures t[k].next == NodeAt(t, k + 1)
    {
      assert t[k] == if k <= i then s[k] else if k == i + 1 then x else s[k - 1];
    }
  }

  lemma UndoneInfos(s: seq<ListHead>, i: nat, x: ListHead, infos: seq<ListData>, info: ListData)
    requires Distinct(s) && i < |s| == |infos| && x !in s && s[i].info == info && x.info == infos[i]
    requires forall k | 0 <= k < |s| && k != i :: s[k].info == infos[k]
    ensures Infos(With(s, i, x)) == infos[..i] + [info] + infos[i..]
  {
    WithAt(s, i, x);
    hide With, Distinct;
  }

  /** Link the removed node back behind the modified one and swap their data again. */
  method UndoRemove(removed: ListHead, modified: ListHead, ghost s: seq<ListHead>, ghost i: nat) returns (ret: ListHead)
    requires Linked(s) && i < |s| && modified == s[i] && removed !in s
    modifies removed, modified
    ensures ret == removed && Linked(With(s, i, removed))
    ensures Infos(With(s, i, removed)) == old(Infos(s))[..i] + [old(removed.info)] + old(Infos(s))[i..]
  {
    WithAt(s, i, removed);
    assert modified.next == NodeAt(s, i + 1);
    hide With, Distinct, Linked;
    ghost var infos, info := Infos(s), removed.info;
    var tmp := removed.info;
    removed.info := modified.info;
    modified.info := tmp;
    removed.next := modified.next;
    modified.next := removed;
    ret := removed;
    UndoneLinked(s, i, removed);
    UndoneInfos(s, i, removed, infos, info);
  }

  /** The benchmark's remove and undo leave the list, node by node and item by item, as it was. */
  method RemoveAndUndo(item: ListHead, ghost s: seq<ListHead>, ghost i: nat)
    requires Linked(s) && i + 1 < |s| && item == s[i]
    modifies s[i], s[i + 1]
    ensures Linked(s) && Infos(s) == old(Infos(s))
  {
    ghost var before := Infos(s);
    assert before[i] == s[i].info;
    RemovedApart(s, i);
    WithWithout(s, i);
    CutAndPaste(before, i);
    hide Infos, Linked, With, Without;
    var remover := Remove(item, s, i);
    var back := UndoRemove(remover, item, Without(s, i), i);
  }

  lemma WithWithout(s: seq<ListHead>, i: nat)
    requires i + 1 < |s|
    ensures |Without(s, i)| == |s| - 1 && Without(s, i)[i] == s[i] && With(Without(s, i), i, s[i + 1]) == s
  {
  }

  lemma CutAndPaste(infos: seq<ListData>, i: nat)
    requires i < |infos|
    ensures
      var cut := infos[..i] + infos[i + 1..];
      cut[..i] + [infos[i]] + cut[i..] == infos
  {
  }

  lemma RemovedApart(s: seq<ListHead>, i: nat)
    requires Linked(s) && i + 1 < |s|
    ensures s[i + 1] !in Without(s, i)
  {
  }
}
