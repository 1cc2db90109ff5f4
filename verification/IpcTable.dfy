/** The id table as the code keeps it (ipc/util.c:52-205): an array replaced when it grows, and
    loops over it, proved against the functions of IpcIds. */
module IpcTable {
  import opened Common
  import opened IpcIds

  class IpcTable {
    var entries: array<Option<Perm>>
    var inUse: int
    var maxId: int
    var next: nat
    var seqMax: nat

    ghost function Model(): Ids
      reads this, entries
    {
      Ids(entries[..], inUse, maxId, next, seqMax)
    }

    /** `ipc_init_ids`. */
    constructor (size: nat, memory: bool)
      ensures fresh(entries) && Model() == Init(size, memory)
    {
      var n := if size > IPCMNI then IPCMNI else size;
      entries := new Option<Perm>[if memory then n else 0](_ => None);
      inUse, maxId, next := 0, -1, 0;
      seqMax := SeqMax();
      new;
      assert entries[..] == Init(size, memory).entries;
    }

    /** `ipc_findkey`: the lowest position with this key, wherever in the array it is. */
    method IpcFindKey(key: int) returns (id: int)
      requires Inv(Model())
      ensures id == FindKey(Model(), key, 0)
      ensures id == -1 <==> forall k :: 0 <= k < entries.Length ==> !HasKey(entries[..], k, key)
      ensures id != -1 ==> HasKey(entries[..], id, key)
    {
      FindKeyExact(Model(), key, 0);
      id := 0;
      while id <= maxId
        invariant 0 <= id <= maxId + 1 && FindKey(Model(), key, id) == FindKey(Model(), key, 0)
      {
        if entries[id].Some? && entries[id].value.key == key {
          return;
        }
        id := id + 1;
      }
      id := -1;
    }

    /** `grow_ary`: a larger array with the old entries in front. */
    method GrowAry(newSize: nat, memory: bool) returns (size: nat)
      modifies this`entries
      ensures entries == old(entries) || fresh(entries)
      ensures (Model(), size) == Grow(old(Model()), newSize, memory)
    {
      size := if newSize > IPCMNI then IPCMNI else newSize;
      if size <= entries.Length {
        return;
      }
      if !memory {
        return entries.Length;
      }
      var bigger := new Option<Perm>[size](_ => None);
      var i := 0;
      while i < entries.Length
        invariant 0 <= i <= entries.Length < bigger.Length == size
        invariant bigger[..i] == entries[..i]
        invariant forall k :: i <= k < size ==> bigger[k] == None
        invariant entries[..] == old(entries[..])
      {
        bigger[i] := entries[i];
        i := i + 1;
      }
      assert bigger[..] == entries[..] + seq(size - entries.Length, _ => None);
      entries := bigger;
    }

    /** `ipc_addid`. */
    method IpcAddId(key: int, newSize: nat, memory: bool) returns (id: int)
      requires Inv(Model())
      modifies this, entries
      ensures entries == old(entries) || fresh(entries)
      ensures (Model(), id) == Add(old(Model()), key, newSize, memory) && Inv(Model())
    {
      AddKeeps(Model(), key, newSize, memory);
      var size := GrowAry(newSize, memory);
      FirstFreeIff(entries[..], 0, size);
      ghost var es := entries[..];
      id := 0;
      while id < size && entries[id].Some?
        invariant 0 <= id <= size <= entries.Length && FirstFree(es, id, size) == FirstFree(es, 0, size)
      {
        id := id + 1;
      }
      if id == size {
        return -1;
      }
      Place(id, key);
    }

    /** The part of `ipc_addid` behind `found`. */
    method Place(id: nat, key: int)
      requires id < entries.Length
      modifies this`inUse, this`maxId, this`next, entries
      ensures var m := old(Model());
              Model() == m.(entries := m.entries[id := Some(Perm(key, m.next))], inUse := m.inUse + 1,
                            maxId := if id > m.maxId then id else m.maxId, next := NextSeq(m))
    {
      inUse := inUse + 1;
      if id > maxId {
        maxId := id;
      }
      var seqno := next;
      next := (next + 1) % (USHRT_MAX + 1);
      if next > seqMax {
        next := 0;
      }
      entries[id] := Some(Perm(key, seqno));
    }

    /** `ipc_rmid`. */
    method IpcRmId(uid: nat) returns (p: Perm)
      requires Inv(Model()) && CanRemove(Model(), uid)
      modifies this`inUse, this`maxId, entries
      ensures Model() == Remove(old(Model()), uid) && Inv(Model())
      ensures Some(p) == Get(old(Model()), uid)
    {
      RemoveKeeps(Model(), uid);
      var lid := uid % SEQ_MULTIPLIER;
      p := entries[lid].value;
      entries[lid] := None;
      inUse := inUse - 1;
      if lid == maxId {
        ghost var es := entries[..];
        var at: int := lid - 1;
        while at != -1 && entries[at].None?
          invariant -1 <= at < lid && entries[..] == es
          invariant LastUsed(es, at + 1) == LastUsed(es, lid)
        {
          at := at - 1;
        }
        maxId := at;
      }
    }
  }
}
