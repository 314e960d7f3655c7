/** Shared memory segments: reference counts, and the list they are on (Xext/shm.c). */
module ShmSegments {

  class ShmDesc {
    const shmid: int
    const isFd: bool
    const writable: bool
    var refcnt: nat
    var next: ShmDesc?

    constructor (shmid: int, isFd: bool, writable: bool, next: ShmDesc?)
      ensures this.shmid == shmid && this.isFd == isFd && this.writable == writable
      ensures refcnt == 1 && this.next == next
    {
      this.shmid, this.isFd, this.writable := shmid, isFd, writable;
      refcnt := 1;
      this.next := next;
    }
  }

  /** A pixmap with its own reference count; `seg` is null when it is not in shared memory. */
  datatype Pixmap = Pixmap(refcnt: nat, seg: ShmDesc?)

  /** The segment resources that name a descriptor. */
  ghost function SegsOf(segs: map<nat, ShmDesc>, d: ShmDesc): set<nat> {
    set id | id in segs && segs[id] == d
  }

  /** The live pixmaps that name a descriptor. */
  ghost function PixmapsOf(pixmaps: map<nat, Pixmap>, d: ShmDesc): set<nat> {
    set id | id in pixmaps && pixmaps[id].seg == d
  }

  ghost function References(segs: map<nat, ShmDesc>, pixmaps: map<nat, Pixmap>, d: ShmDesc): nat {
    |SegsOf(segs, d)| + |PixmapsOf(pixmaps, d)|
  }

  lemma SegAdded(segs: map<nat, ShmDesc>, pixmaps: map<nat, Pixmap>, id: nat, d: ShmDesc, x: ShmDesc)
    requires id !in segs
    ensures References(segs[id := d], pixmaps, x) == References(segs, pixmaps, x) + if x == d then 1 else 0
  {
    assert SegsOf(segs[id := d], x) == SegsOf(segs, x) + if x == d then {id} else {};
  }

  lemma SegRemoved(segs: map<nat, ShmDesc>, pixmaps: map<nat, Pixmap>, id: nat, x: ShmDesc)
    requires id in segs
    ensures References(segs, pixmaps, x) == References(segs - {id}, pixmaps, x) + if x == segs[id] then 1 else 0
  {
    assert SegsOf(segs, x) == SegsOf(segs - {id}, x) + if x == segs[id] then {id} else {};
  }

  lemma PixmapAdded(segs: map<nat, ShmDesc>, pixmaps: map<nat, Pixmap>, id: nat, p: Pixmap, x: ShmDesc)
    requires id !in pixmaps
    ensures References(segs, pixmaps[id := p], x) == References(segs, pixmaps, x) + if x == p.seg then 1 else 0
  {
    assert PixmapsOf(pixmaps[id := p], x) == PixmapsOf(pixmaps, x) + if x == p.seg then {id} else {};
  }

  lemma PixmapRemoved(segs: map<nat, ShmDesc>, pixmaps: map<nat, Pixmap>, id: nat, x: ShmDesc)
    requires id in pixmaps
    ensures References(segs, pixmaps, x)
         == References(segs, pixmaps - {id}, x) + if x == pixmaps[id].seg then 1 else 0
  {
    assert PixmapsOf(pixmaps, x) == PixmapsOf(pixmaps - {id}, x) + if x == pixmaps[id].seg then {id} else {};
  }

  lemma PixmapKept(segs: map<nat, ShmDesc>, pixmaps: map<nat, Pixmap>, id: nat, p: Pixmap, x: ShmDesc)
    requires id in pixmaps && pixmaps[id].seg == p.seg
    ensures References(segs, pixmaps[id := p], x) == References(segs, pixmaps, x)
  {
    assert PixmapsOf(pixmaps[id := p], x) == PixmapsOf(pixmaps, x);
  }

  lemma Unreferenced(segs: map<nat, ShmDesc>, pixmaps: map<nat, Pixmap>, d: ShmDesc)
    requires References(segs, pixmaps, d) == 0
    ensures forall id :: id in segs ==> segs[id] != d
    ensures forall id :: id in pixmaps ==> pixmaps[id].seg != d
  {
    forall id | id in segs
      ensures segs[id] != d
    {
      assert id !in SegsOf(segs, d);
    }
    forall id | id in pixmaps
      ensures pixmaps[id].seg != d
    {
      assert id !in PixmapsOf(pixmaps, d);
    }
  }

  lemma Referenced(segs: map<nat, ShmDesc>, pixmaps: map<nat, Pixmap>, d: ShmDesc, id: nat)
    requires id in segs && segs[id] == d
    ensures References(segs, pixmaps, d) > 0
  {
    assert id in SegsOf(segs, d);
  }

  /** The list without one element. */
  lemma WithoutOne(list: seq<ShmDesc>, i: nat)
    requires i < |list| && Distinct(list)
    ensures forall e :: e in list[..i] + list[i + 1..] <==> e in list && e != list[i]
  {
    var rest := list[..i] + list[i + 1..];
    forall e
      ensures e in rest <==> e in list && e != list[i]
    {
      if e in list && e != list[i] {
        var k :| 0 <= k < |list| && list[k] == e;
        assert rest[if k < i then k else k - 1] == e;
      }
    }
  }

  /** The list without `d`. */
  ghost function Except(list: seq<ShmDesc>, d: ShmDesc): seq<ShmDesc> {
    if list == [] then [] else if list[0] == d then list[1..] else [list[0]] + Except(list[1..], d)
  }

  lemma {:induction false} ExceptAt(list: seq<ShmDesc>, i: nat)
    requires i < |list| && Distinct(list)
    ensures Except(list, list[i]) == list[..i] + list[i + 1..]
  {
    if i > 0 {
      ExceptAt(list[1..], i - 1);
      assert list[1..][..i - 1] == list[1..i];
      assert list[..i] == [list[0]] + list[1..i];
    }
  }

  /** A request to attach `shmid` finds this descriptor. */
  predicate Shares(d: ShmDesc, shmid: int) {
    !d.isFd && d.shmid == shmid
  }

  /** `d` is element `i` of the list, or nothing at its end. */
  ghost predicate At(list: seq<ShmDesc>, i: nat, d: ShmDesc?) {
    i <= |list| && d == if i < |list| then list[i] else null
  }

  ghost predicate Distinct(list: seq<ShmDesc>) {
    forall i, j :: 0 <= i < j < |list| ==> list[i] != list[j]
  }

  datatype Status = Success | BadAlloc | BadAccess | BadShmSeg

  class Server {
    var shmsegs: ShmDesc?
    var segs: map<nat, ShmDesc>
    var pixmaps: map<nat, Pixmap>
    ghost var list: seq<ShmDesc>

    /** The list from shmsegs to null, each descriptor once. */
    ghost predicate Linked()
      reads this`shmsegs, this`list, list`next
    {
      && At(list, 0, shmsegs)
      && (forall i :: 0 <= i < |list| ==> At(list, i + 1, list[i].next))
      && Distinct(list)
    }

    /** The descriptors referred to are those on the list; `extra` counts one reference more than there is. */
    ghost predicate Counted(extra: ShmDesc?)
      reads this`segs, this`pixmaps, this`list, list`refcnt
    {
      && (forall d :: d in list ==>
            d.refcnt == References(segs, pixmaps, d) + (if d == extra then 1 else 0) && d.refcnt > 0)
      && (forall id :: id in segs ==> segs[id] in list)
      && (forall id :: id in pixmaps && pixmaps[id].seg != null ==> pixmaps[id].seg in list)
      && (forall id :: id in pixmaps ==> pixmaps[id].refcnt > 0)
    }

    /** No shared memory id has two descriptors; those for file descriptors have none. */
    ghost predicate OnePerId()
      reads this`list
    {
      forall d, e :: d in list && e in list && d != e && !d.isFd && !e.isFd ==> d.shmid != e.shmid
    }

    ghost predicate Valid()
      reads this, list
    {
      Linked() && Counted(null) && OnePerId()
    }

    constructor ()
      ensures Valid() && list == [] && segs == map[] && pixmaps == map[]
    {
      shmsegs, segs, pixmaps, list := null, map[], map[], [];
    }

    /** ShmDetachSegment: give up the reference too many; the last one takes the descriptor off the list. */
    method DetachSegment(d: ShmDesc)
      requires Linked() && Counted(d) && OnePerId() && d in list
      modifies this`shmsegs, this`list, list`next, list`refcnt
      ensures Valid()
      ensures d in list <==> References(segs, pixmaps, d) > 0
      ensures list == if d in list then old(list) else Except(old(list), d)
    {
      hide Linked;
      d.refcnt := d.refcnt - 1;
      if d.refcnt != 0 {
        return;
      }
      Unreferenced(segs, pixmaps, d);
      ghost var i := Index(d);
      WithoutOne(list, i);
      ExceptAt(list, i);
      hide References;
      Unlink(d, i);
    }

    lemma Index(d: ShmDesc) returns (i: nat)
      requires Linked() && d in list
      ensures i < |list| && list[i] == d && Distinct(list)
    {
      i :| 0 <= i < |list| && list[i] == d;
    }

    /** The walk to the pointer that names the descriptor. It ends, as the descriptor is on the list. */
    method Predecessor(d: ShmDesc, ghost i: nat) returns (prev: ShmDesc?)
      requires Linked() && i < |list| && list[i] == d
      ensures prev == if i > 0 then list[i - 1] else null
    {
      prev := null;
      var at := shmsegs;
      ghost var k := 0;
      while at != d
        invariant k <= i && At(list, k, at) && prev == if k > 0 then list[k - 1] else null
        decreases i - k
      {
        prev := at;
        at := at.next;
        k := k + 1;
      }
      assert k == i;
    }

    method Unlink(d: ShmDesc, ghost i: nat)
      requires Linked() && i < |list| && list[i] == d
      modifies this`shmsegs, this`list, list`next
      ensures Linked() && list == old(list)[..i] + old(list)[i + 1..]
    {
      var prev := Predecessor(d, i);
      if prev != null {
        prev.next := d.next;
      } else {
        shmsegs := d.next;
      }
      ghost var was := list;
      list := was[..i] + was[i + 1..];
      assert forall k :: 0 <= k < i ==> list[k] == was[k];
      assert forall k :: i <= k < |list| ==> list[k] == was[k + 1];
    }

    /** The walk for a descriptor of a shared memory id; those for file descriptors do not count. */
    method Find(shmid: int) returns (d: ShmDesc?)
      requires Linked()
      ensures d != null ==> d in list && !d.isFd && d.shmid == shmid
      ensures d == null ==> forall e :: e in list ==> e.isFd || e.shmid != shmid
    {
      d := shmsegs;
      ghost var i := 0;
      while d != null
        invariant At(list, i, d)
        invariant forall k :: 0 <= k < i ==> list[k].isFd || list[k].shmid != shmid
        decreases |list| - i
      {
        if !d.isFd && d.shmid == shmid {
          break;
        }
        d := d.next;
        i := i + 1;
      }
    }

    /** A new descriptor at the front of the list, with the reference its resource will be. */
    method Push(shmid: int, isFd: bool, writable: bool) returns (d: ShmDesc)
      requires Valid()
      requires !isFd ==> forall e :: e in list ==> e.isFd || e.shmid != shmid
      modifies this`shmsegs, this`list
      ensures fresh(d) && d.shmid == shmid && d.isFd == isFd && d.writable == writable
      ensures Linked() && Counted(d) && OnePerId() && list == [d] + old(list)
    {
      hide Linked, References;
      d := new ShmDesc(shmid, isFd, writable, shmsegs);
      NotNamed(d);
      Prepend(d);
    }

    lemma NotNamed(d: ShmDesc)
      requires Valid() && d !in list
      ensures References(segs, pixmaps, d) == 0
    {
      assert SegsOf(segs, d) == {};
      assert PixmapsOf(pixmaps, d) == {};
    }

    method Prepend(d: ShmDesc)
      requires Linked() && d !in list && d.next == shmsegs
      modifies this`shmsegs, this`list
      ensures Linked() && list == [d] + old(list)
    {
      ghost var was := list;
      shmsegs := d;
      list := [d] + list;
      assert forall i :: 1 <= i < |list| ==> list[i] == was[i - 1];
    }

    /** The resource for a descriptor whose reference is already counted. */
    method AddSegment(segId: nat, d: ShmDesc, added: bool) returns (status: Status)
      requires Linked() && Counted(d) && OnePerId() && d in list && segId !in segs
      modifies this`segs, this`shmsegs, this`list, list`next, list`refcnt
      ensures Valid() && status == if added then Success else BadAlloc
      ensures segs == if added then old(segs)[segId := d] else old(segs)
      ensures list == if added || References(segs, pixmaps, d) > 0 then old(list) else Except(old(list), d)
    {
      hide Linked, References;
      if !added {
        DetachSegment(d);
        return BadAlloc;
      }
      forall x | x in list
        ensures References(segs[segId := d], pixmaps, x) == References(segs, pixmaps, x) + if x == d then 1 else 0
      {
        SegAdded(segs, pixmaps, segId, d, x);
      }
      segs := segs[segId := d];
      status := Success;
    }

    /** Count a reference that is about to be made. */
    method Grab(d: ShmDesc)
      requires Valid() && d in list
      modifies d`refcnt
      ensures Linked() && Counted(d) && OnePerId()
    {
      hide Linked, References;
      d.refcnt := d.refcnt + 1;
    }

    lemma Named(segId: nat)
      requires Valid() && segId in segs
      ensures segs[segId] in list
    {
    }

    /** ProcShmAttach: a shared memory id attached before is only referred to once more. */
    method Attach(segId: nat, shmid: int, readOnly: bool, permitted: bool, added: bool) returns (status: Status)
      requires Valid() && segId !in segs
      modifies this`segs, this`shmsegs, this`list, list`next, list`refcnt
      ensures Valid()
      ensures status != Success ==> segs == old(segs) && list == old(list)
      ensures status == Success ==>
        segId in segs && segs == old(segs)[segId := segs[segId]]
        && !segs[segId].isFd && segs[segId].shmid == shmid && (readOnly || segs[segId].writable)
      ensures forall e :: e in old(list) && Shares(e, shmid) ==>
        && (status == BadAccess <==> !readOnly && !e.writable)
        && (status == Success ==> segs[segId] == e && list == old(list))
      ensures (forall e :: e in old(list) ==> !Shares(e, shmid)) ==>
        && (status == BadAccess <==> !permitted)
        && (status == Success ==>
              fresh(segs[segId]) && segs[segId].writable == !readOnly && list == [segs[segId]] + old(list))
      ensures status != BadAccess ==> status == if added then Success else BadAlloc
    {
      var d := Find(shmid);
      hide Linked;
      if d != null {
        if !readOnly && !d.writable {
          return BadAccess;
        }
        Grab(d);
      } else {
        if !permitted {
          return BadAccess;
        }
        d := Push(shmid, false, !readOnly);
      }
      status := AddSegment(segId, d, added);
    }

    /** ProcShmAttachFd: always a descriptor of its own. */
    method AttachFd(segId: nat, readOnly: bool, mapped: bool, added: bool) returns (status: Status)
      requires Valid() && segId !in segs
      modifies this`segs, this`shmsegs, this`list, list`next, list`refcnt
      ensures Valid()
      ensures status == if !mapped then BadAccess else if added then Success else BadAlloc
      ensures status != Success ==> segs == old(segs) && list == old(list)
      ensures status == Success ==>
        && segId in segs && segs == old(segs)[segId := segs[segId]] && list == [segs[segId]] + old(list)
        && segs[segId].isFd && fresh(segs[segId]) && segs[segId].writable == !readOnly
    {
      if !mapped {
        return BadAccess;
      }
      hide Linked;
      var d := Push(0, true, !readOnly);
      status := AddSegment(segId, d, added);
    }

    /** ProcShmDetach: the resource goes, and with it its reference. */
    method Detach(segId: nat) returns (status: Status)
      requires Valid()
      modifies this`segs, this`shmsegs, this`list, list`next, list`refcnt
      ensures Valid() && segs == old(segs) - {segId}
      ensures status == if segId in old(segs) then Success else BadShmSeg
      ensures segId in old(segs) ==>
        var d := old(segs)[segId]; list == if References(segs, pixmaps, d) > 0 then old(list) else Except(old(list), d)
      ensures segId !in old(segs) ==> list == old(list)
    {
      if segId !in segs {
        return BadShmSeg;
      }
      hide Linked, Counted, OnePerId;
      var d := segs[segId];
      RemoveSeg(segId);
      DetachSegment(d);
      status := Success;
    }

    method RemoveSeg(segId: nat)
      requires Valid() && segId in segs
      modifies this`segs
      ensures Linked() && OnePerId() && Counted(old(segs)[segId]) && segs == old(segs) - {segId}
      ensures old(segs)[segId] in list
    {
      hide References, Linked;
      forall x | x in list
        ensures References(segs, pixmaps, x)
             == References(segs - {segId}, pixmaps, x) + if x == segs[segId] then 1 else 0
      {
        SegRemoved(segs, pixmaps, segId, x);
      }
      segs := segs - {segId};
    }

    /** ProcShmCreatePixmap: a pixmap in a segment keeps its descriptor. */
    method CreatePixmap(pid: nat, segId: nat, created: bool, permitted: bool, added: bool) returns (status: Status)
      requires Valid() && pid !in pixmaps
      modifies this`pixmaps, this`shmsegs, this`list, list`next, list`refcnt
      ensures Valid()
      ensures status == if segId !in segs then BadShmSeg else if !created then BadAlloc else if !permitted then BadAccess
                        else if added then Success else BadAlloc
      ensures pixmaps == if status == Success then old(pixmaps)[pid := Pixmap(1, segs[segId])] else old(pixmaps)
      ensures list == old(list)
    {
      if segId !in segs {
        return BadShmSeg;
      }
      if !created {
        return BadAlloc;
      }
      if !permitted {
        return BadAccess;
      }
      hide *;
      status := AddCreated(pid, segId, added);
    }

    method AddCreated(pid: nat, segId: nat, added: bool) returns (status: Status)
      requires Valid() && pid !in pixmaps && segId in segs
      modifies this`pixmaps, this`shmsegs, this`list, list`next, list`refcnt
      ensures Valid() && status == if added then Success else BadAlloc
      ensures pixmaps == if added then old(pixmaps)[pid := Pixmap(1, segs[segId])] else old(pixmaps)
      ensures list == old(list)
    {
      hide Linked, Counted, OnePerId;
      var d := segs[segId];
      Named(segId);
      Grab(d);
      if !added {
        Referenced(segs, pixmaps, d, segId);
        DetachSegment(d);
        return BadAlloc;
      }
      AddPixmap(pid, d);
      status := Success;
    }

    method AddPixmap(pid: nat, d: ShmDesc)
      requires Counted(d) && d in list && pid !in pixmaps
      modifies this`pixmaps
      ensures Counted(null) && pixmaps == old(pixmaps)[pid := Pixmap(1, d)]
    {
      hide References;
      var p := Pixmap(1, d);
      forall x | x in list
        ensures References(segs, pixmaps[pid := p], x) == References(segs, pixmaps, x) + if x == d then 1 else 0
      {
        PixmapAdded(segs, pixmaps, pid, p, x);
      }
      pixmaps := pixmaps[pid := p];
    }

    /** Another reference to a pixmap itself. */
    method ReferencePixmap(pid: nat)
      requires Valid() && pid in pixmaps
      modifies this`pixmaps
      ensures Valid() && pixmaps == old(pixmaps)[pid := Pixmap(old(pixmaps)[pid].refcnt + 1, old(pixmaps)[pid].seg)]
    {
      SetCount(pid, pixmaps[pid].refcnt + 1);
    }

    method SetCount(pid: nat, n: nat)
      requires Valid() && pid in pixmaps && n > 0
      modifies this`pixmaps
      ensures Valid() && pixmaps == old(pixmaps)[pid := Pixmap(n, old(pixmaps)[pid].seg)]
    {
      hide References, Linked;
      var p := Pixmap(n, pixmaps[pid].seg);
      forall x | x in list
        ensures References(segs, pixmaps[pid := p], x) == References(segs, pixmaps, x)
      {
        PixmapKept(segs, pixmaps, pid, p, x);
      }
      pixmaps := pixmaps[pid := p];
    }

    /** ShmDestroyPixmap: the last reference to a pixmap gives up its descriptor. */
    method DestroyPixmap(pid: nat)
      requires Valid() && pid in pixmaps
      modifies this`pixmaps, this`shmsegs, this`list, list`next, list`refcnt
      ensures Valid()
      ensures var p := old(pixmaps)[pid];
        && pixmaps == (if p.refcnt == 1 then old(pixmaps) - {pid} else old(pixmaps)[pid := Pixmap(p.refcnt - 1, p.seg)])
        && list == if p.refcnt == 1 && p.seg != null && References(segs, pixmaps, p.seg) == 0
                   then Except(old(list), p.seg) else old(list)
    {
      var d: ShmDesc? := null;
      if pixmaps[pid].refcnt == 1 {
        d := pixmaps[pid].seg;
        RemovePixmap(pid);
      } else {
        SetCount(pid, pixmaps[pid].refcnt - 1);
      }
      if d != null {
        DetachSegment(d);
      }
    }

    method RemovePixmap(pid: nat)
      requires Valid() && pid in pixmaps
      modifies this`pixmaps
      ensures Linked() && OnePerId() && Counted(old(pixmaps)[pid].seg) && pixmaps == old(pixmaps) - {pid}
      ensures var d := old(pixmaps)[pid].seg; d != null ==> d in list
    {
      hide References, Linked;
      forall x | x in list
        ensures References(segs, pixmaps, x)
             == References(segs, pixmaps - {pid}, x) + if x == pixmaps[pid].seg then 1 else 0
      {
        PixmapRemoved(segs, pixmaps, pid, x);
      }
      pixmaps := pixmaps - {pid};
    }
  }
}
