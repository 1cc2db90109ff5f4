/** System V IPC identifiers (ipc/util.c:52-205, ipc/util.h:53-97): an array of objects, the
    counters that summarise it, and ids that carry a sequence number so that an old id does
    not reach a new object. */
module IpcIds {
  import opened Common

  /** IPCMNI from linux/ipc.h. */
  const IPCMNI: nat := 32768
  const SEQ_MULTIPLIER: nat := IPCMNI
  const USHRT_MAX: nat := 0xffff
  const INT_MAX: nat := 0x7fff_ffff

  datatype Perm = Perm(key: int, seqno: nat)

  type Entries = seq<Option<Perm>>

  /** `struct ipc_ids`. */
  datatype Ids = Ids(entries: Entries, inUse: int, maxId: int, next: nat, seqMax: nat)

  // ---------------------------------------------------------------- the operations

  function SeqMax(): nat { Min(INT_MAX / SEQ_MULTIPLIER, USHRT_MAX) }

  /** `ipc_init_ids`; `memory` says whether the allocation succeeds. */
  function Init(size: nat, memory: bool): Ids {
    Ids(if memory then seq(if size > IPCMNI then IPCMNI else size, _ => None) else [], 0, -1, 0, SeqMax())
  }

  /** `ipc_findkey` from position `i`. */
  function FindKey(ids: Ids, key: int, i: nat): int
    decreases |ids.entries| - i
  {
    if i >= |ids.entries| || i > ids.maxId then -1
    else if ids.entries[i].Some? && ids.entries[i].value.key == key then i
    else FindKey(ids, key, i + 1)
  }

  /** `grow_ary`: the array never shrinks, but the answer may be smaller than the array. */
  function Grow(ids: Ids, size: nat, memory: bool): (Ids, nat) {
    var size := if size > IPCMNI then IPCMNI else size;
    if size <= |ids.entries| then (ids, size)
    else if !memory then (ids, |ids.entries|)
    else (ids.(entries := ids.entries + seq(size - |ids.entries|, _ => None)), size)
  }

  function FirstFree(es: Entries, i: nat, size: nat): int
    requires size <= |es|
    decreases size - i
  {
    if i >= size then -1 else if es[i].None? then i else FirstFree(es, i + 1, size)
  }

  /** `ids->seq++` on an unsigned short, and back to 0 behind the maximum. */
  function NextSeq(ids: Ids): nat {
    var n := (ids.next + 1) % (USHRT_MAX + 1);
    if n > ids.seqMax then 0 else n
  }

  /** `ipc_addid`; -1 when the array is full. */
  function Add(ids: Ids, key: int, size: nat, memory: bool): (Ids, int) {
    var (ids1, n) := Grow(ids, size, memory);
    var id := FirstFree(ids1.entries, 0, n);
    FirstFreeIff(ids1.entries, 0, n);
    if id < 0 then (ids1, -1)
    else (ids1.(entries := ids1.entries[id := Some(Perm(key, ids.next))], inUse := ids.inUse + 1,
                maxId := if id > ids.maxId then id else ids.maxId, next := NextSeq(ids)), id)
  }

  /** The last used position below `n`, or -1. */
  function LastUsed(es: Entries, n: nat): int
    requires n <= |es|
  {
    if n == 0 then -1 else if es[n - 1].Some? then n - 1 else LastUsed(es, n - 1)
  }

  /** The two tests that end in BUG(). */
  predicate CanRemove(ids: Ids, uid: nat) {
    uid % SEQ_MULTIPLIER < |ids.entries| && ids.entries[uid % SEQ_MULTIPLIER].Some?
  }

  /** `ipc_rmid`. */
  function Remove(ids: Ids, uid: nat): Ids
    requires CanRemove(ids, uid)
  {
    var lid := uid % SEQ_MULTIPLIER;
    var es := ids.entries[lid := None];
    ids.(entries := es, inUse := ids.inUse - 1, maxId := if lid == ids.maxId then LastUsed(es, lid) else ids.maxId)
  }

  /** `ipc_get`. */
  function Get(ids: Ids, uid: nat): Option<Perm> {
    var lid := uid % SEQ_MULTIPLIER;
    if lid >= |ids.entries| then None else ids.entries[lid]
  }

  /** `ipc_buildid`. */
  function BuildId(id: nat, seqno: nat): nat { SEQ_MULTIPLIER * seqno + id }

  /** `ipc_get` followed by `ipc_checkid`, as every system call does. */
  function Lookup(ids: Ids, uid: nat): Option<Perm> {
    var p := Get(ids, uid);
    if p.Some? && uid / SEQ_MULTIPLIER == p.value.seqno then p else None
  }

  // ---------------------------------------------------------------- the counters match the array

  function Used(es: Entries): nat {
    if es == [] then 0 else Used(es[1..]) + if es[0].Some? then 1 else 0
  }

  predicate IsLast(es: Entries, m: int) {
    && -1 <= m < |es| && (m >= 0 ==> es[m].Some?)
    && forall i :: 0 <= i < |es| && i > m ==> es[i].None?
  }

  predicate Inv(ids: Ids) {
    && |ids.entries| <= IPCMNI && ids.inUse == Used(ids.entries) && IsLast(ids.entries, ids.maxId)
    && ids.seqMax == SeqMax() && ids.next <= ids.seqMax
    && forall i :: 0 <= i < |ids.entries| && ids.entries[i].Some? ==> ids.entries[i].value.seqno <= ids.seqMax
  }

  lemma {:induction false} UsedUpdate(es: Entries, i: nat, x: Option<Perm>)
    requires i < |es|
    ensures Used(es[i := x]) == Used(es) + (if x.Some? then 1 else 0) - (if es[i].Some? then 1 else 0)
  {
    if i == 0 {
      assert es[0 := x][1..] == es[1..];
    } else {
      assert es[i := x][1..] == es[1..][i - 1 := x];
      UsedUpdate(es[1..], i - 1, x);
    }
  }

  lemma {:induction false} UsedGrow(es: Entries, n: nat)
    ensures Used(es + seq(n, _ => None)) == Used(es)
    decreases |es| + n
  {
    var all := es + seq(n, _ => None);
    if es != [] {
      assert all[1..] == es[1..] + seq(n, _ => None);
      UsedGrow(es[1..], n);
    } else if n > 0 {
      assert all[1..] == [] + seq(n - 1, _ => None);
      UsedGrow([], n - 1);
    }
  }

  lemma {:induction false} FirstFreeIff(es: Entries, i: nat, size: nat)
    requires size <= |es|
    ensures var r := FirstFree(es, i, size);
            if r < 0 then r == -1 && forall k :: i <= k < size ==> es[k].Some?
            else i <= r < size && es[r].None? && forall k :: i <= k < r ==> es[k].Some?
    decreases size - i
  {
    if i < size && es[i].Some? { FirstFreeIff(es, i + 1, size); }
  }

  lemma {:induction false} LastUsedIff(es: Entries, n: nat)
    requires n <= |es| && forall i :: n <= i < |es| ==> es[i].None?
    ensures IsLast(es, LastUsed(es, n))
  {
    if n > 0 && es[n - 1].None? { LastUsedIff(es, n - 1); }
  }

  lemma GrowKeeps(ids: Ids, size: nat, memory: bool)
    requires Inv(ids)
    ensures var (g, n) := Grow(ids, size, memory);
            && Inv(g) && n <= |g.entries| && |ids.entries| <= |g.entries| && g == ids.(entries := g.entries)
            && g.entries[..|ids.entries|] == ids.entries
  {
    var size1 := if size > IPCMNI then IPCMNI else size;
    if size1 > |ids.entries| && memory { LongerInv(ids, size1 - |ids.entries|); }
  }

  lemma LongerInv(ids: Ids, n: nat)
    requires Inv(ids) && |ids.entries| + n <= IPCMNI
    ensures var es := ids.entries + seq(n, _ => None); Inv(ids.(entries := es)) && es[..|ids.entries|] == ids.entries
  {
    UsedGrow(ids.entries, n);
  }

  /** The array ends up as large as asked for, up to IPCMNI, if there is memory, and never
      smaller than it was; the answer is what may be searched. */
  lemma GrowExact(ids: Ids, size: nat, memory: bool)
    ensures var (g, n) := Grow(ids, size, memory);
            && (memory ==> n == Min(size, IPCMNI) && |g.entries| == if n > |ids.entries| then n else |ids.entries|)
            && (!memory ==> g == ids && n == Min(Min(size, IPCMNI), |ids.entries|))
            && forall k :: |ids.entries| <= k < |g.entries| ==> g.entries[k].None?
  {
  }

  /** `ipc_addid` takes the lowest free position and touches no other, fails only when there is
      none, and keeps the counters right. */
  lemma AddKeeps(ids: Ids, key: int, size: nat, memory: bool)
    requires Inv(ids)
    ensures var (g, n) := Grow(ids, size, memory);
            var (r, id) := Add(ids, key, size, memory);
            && Inv(r)
            && (id < 0 ==> r == g && forall k :: 0 <= k < n ==> g.entries[k].Some?)
            && (id >= 0 ==> (
                  && id < n && g.entries[id].None? && (forall k :: 0 <= k < id ==> g.entries[k].Some?)
                  && r.entries == g.entries[id := Some(Perm(key, ids.next))]
                  && r.next == (ids.next + 1) % (SeqMax() + 1)))
  {
    GrowKeeps(ids, size, memory);
    var (g, n) := Grow(ids, size, memory);
    FirstFreeIff(g.entries, 0, n);
    var id := FirstFree(g.entries, 0, n);
    if id >= 0 { UsedUpdate(g.entries, id, Some(Perm(key, ids.next))); }
  }

  lemma RemoveKeeps(ids: Ids, uid: nat)
    requires Inv(ids) && CanRemove(ids, uid)
    ensures Inv(Remove(ids, uid)) && Remove(ids, uid).entries == ids.entries[uid % SEQ_MULTIPLIER := None]
  {
    var lid := uid % SEQ_MULTIPLIER;
    var es := ids.entries[lid := None];
    UsedUpdate(ids.entries, lid, None);
    if lid == ids.maxId { LastUsedIff(es, lid); }
  }

  /** The scan stops at `max_id`, and yet sees the whole array. */
  lemma {:induction false} FindKeyExact(ids: Ids, key: int, i: nat)
    requires IsLast(ids.entries, ids.maxId)
    ensures var r := FindKey(ids, key, i);
            var end := if r < 0 then |ids.entries| else r;
            && (if r < 0 then r == -1 else i <= r < |ids.entries| && HasKey(ids.entries, r, key))
            && forall k :: i <= k < end ==> !HasKey(ids.entries, k, key)
    decreases |ids.entries| - i
  {
    if i < |ids.entries| && i <= ids.maxId && !HasKey(ids.entries, i, key) { FindKeyExact(ids, key, i + 1); }
  }

  predicate HasKey(es: Entries, k: int, key: int) {
    0 <= k < |es| && es[k].Some? && es[k].value.key == key
  }

  // ---------------------------------------------------------------- ids over whole runs

  /** `born[i]` is the number of the addition that last filled position `i`, and `keys[n]` is
      the key of addition number `n`. */
  datatype History = History(ids: Ids, adds: nat, born: map<nat, nat>, keys: seq<int>)

  datatype Event = DoAdd(key: int, size: nat, memory: bool) | DoRemove(uid: nat)

  predicate Enabled(h: History, e: Event) { e.DoRemove? ==> CanRemove(h.ids, e.uid) }

  function Step(h: History, e: Event): History
    requires Enabled(h, e)
  {
    match e
    case DoAdd(key, size, memory) =>
      var (ids, id) := Add(h.ids, key, size, memory);
      if id < 0 then h.(ids := ids) else History(ids, h.adds + 1, h.born[id := h.adds], h.keys + [key])
    case DoRemove(uid) => h.(ids := Remove(h.ids, uid))
  }

  const ROUND: nat := SeqMax() + 1

  /** The sequence number of a position is the number of its addition, counted in rounds, and its
      key is the one given then. */
  predicate Numbered(h: History) {
    && h.ids.next == h.adds % ROUND && |h.keys| == h.adds
    && (forall i :: i in h.born ==> h.born[i] < h.adds)
    && forall i :: 0 <= i < |h.ids.entries| && h.ids.entries[i].Some? ==>
         i in h.born && h.ids.entries[i] == Some(Perm(h.keys[h.born[i]], h.born[i] % ROUND))
  }

  predicate HistoryInv(h: History) { Inv(h.ids) && Numbered(h) }

  /** Positions are only ever filled again by later additions. */
  predicate Later(h: History, t: History) {
    && t.adds >= h.adds && h.keys <= t.keys
    && forall i :: i in h.born ==> i in t.born && t.born[i] >= h.born[i]
  }

  lemma AddStep(h: History, key: int, size: nat, memory: bool)
    requires HistoryInv(h)
    ensures HistoryInv(Step(h, DoAdd(key, size, memory))) && Later(h, Step(h, DoAdd(key, size, memory)))
  {
    AddKeeps(h.ids, key, size, memory);
    GrowNumbered(h, size, memory);
    var g, id := h.(ids := Grow(h.ids, size, memory).0), Add(h.ids, key, size, memory).1;
    if id >= 0 { FillNumbered(g, id, key, Step(h, DoAdd(key, size, memory))); }
  }

  /** A free position filled by the next addition. */
  lemma FillNumbered(g: History, id: nat, key: int, t: History)
    requires Numbered(g) && id < |g.ids.entries|
    requires t.ids.entries == g.ids.entries[id := Some(Perm(key, g.ids.next))] && t.ids.next == (g.ids.next + 1) % ROUND
    requires t.adds == g.adds + 1 && t.born == g.born[id := g.adds] && t.keys == g.keys + [key]
    ensures Numbered(t)
  {
    assert t.ids.next == t.adds % ROUND by { NextRound(g.adds); }
  }

  lemma NextRound(n: nat)
    ensures (n % ROUND + 1) % ROUND == (n + 1) % ROUND
  {
  }

  lemma RemoveStep(h: History, uid: nat)
    requires HistoryInv(h) && CanRemove(h.ids, uid)
    ensures HistoryInv(Step(h, DoRemove(uid)))
  {
    RemoveKeeps(h.ids, uid);
  }

  lemma StepKeeps(h: History, e: Event)
    requires HistoryInv(h) && Enabled(h, e)
    ensures HistoryInv(Step(h, e)) && Later(h, Step(h, e))
  {
    match e
    case DoAdd(key, size, memory) => AddStep(h, key, size, memory);
    case DoRemove(uid) => RemoveStep(h, uid);
  }

  lemma GrowNumbered(h: History, size: nat, memory: bool)
    requires Numbered(h)
    ensures Numbered(h.(ids := Grow(h.ids, size, memory).0))
  {
  }

  predicate IsRun(h: History, es: seq<Event>)
    decreases |es|
  {
    es == [] || (Enabled(h, es[0]) && IsRun(Step(h, es[0]), es[1..]))
  }

  function After(h: History, es: seq<Event>): History
    requires IsRun(h, es)
    decreases |es|
  {
    if es == [] then h else After(Step(h, es[0]), es[1..])
  }

  lemma {:induction false} RunKeeps(h: History, es: seq<Event>)
    requires HistoryInv(h) && IsRun(h, es)
    ensures HistoryInv(After(h, es)) && Later(h, After(h, es))
    decreases |es|
  {
    if es != [] {
      StepKeeps(h, es[0]);
      RunKeeps(Step(h, es[0]), es[1..]);
    }
  }

  /** The table as `ipc_init_ids` leaves it, before any addition. */
  function Booted(size: nat, memory: bool): (h: History)
    ensures HistoryInv(h)
  {
    InitInv(size, memory);
    History(Init(size, memory), 0, map[], [])
  }

  lemma InitInv(size: nat, memory: bool)
    ensures HistoryInv(History(Init(size, memory), 0, map[], []))
    ensures var es := Init(size, memory).entries;
            |es| == (if memory then Min(size, IPCMNI) else 0) && forall k :: 0 <= k < |es| ==> es[k] == None
  {
    if memory {
      var n := if size > IPCMNI then IPCMNI else size;
      UsedGrow([], n);
      assert Init(size, memory).entries == [] + seq(n, _ => None);
    }
  }

  /** An id takes its position and its sequence number back out, and fits an int. */
  lemma BuildIdRoundTrip(id: nat, seqno: nat)
    requires id < IPCMNI && seqno <= SeqMax()
    ensures BuildId(id, seqno) % SEQ_MULTIPLIER == id && BuildId(id, seqno) / SEQ_MULTIPLIER == seqno
    ensures BuildId(id, seqno) <= INT_MAX
  {
  }

  lemma SameRound(a: nat, b: nat)
    requires a <= b
    ensures a % ROUND == b % ROUND <==> (b - a) % ROUND == 0
  {
  }

  lemma LookupBuilt(ids: Ids, id: nat, seqno: nat)
    requires id < IPCMNI && seqno <= SeqMax()
    ensures Lookup(ids, BuildId(id, seqno)) ==
      if id < |ids.entries| && ids.entries[id].Some? && ids.entries[id].value.seqno == seqno then ids.entries[id]
      else None
  {
    BuildIdRoundTrip(id, seqno);
  }

  lemma AddedId(h: History, key: int, size: nat, memory: bool)
    requires HistoryInv(h) && Add(h.ids, key, size, memory).1 >= 0
    ensures var h1, id := Step(h, DoAdd(key, size, memory)), Add(h.ids, key, size, memory).1;
            HistoryInv(h1) && id < IPCMNI && id in h1.born && h1.born[id] == h.adds && h1.keys == h.keys + [key]
  {
    AddStep(h, key, size, memory);
    AddKeeps(h.ids, key, size, memory);
    GrowKeeps(h.ids, size, memory);
  }

  predicate Occupied(ids: Ids, id: nat) { id < |ids.entries| && ids.entries[id].Some? }

  lemma LookupAfter(h: History, key: int, size: nat, memory: bool, es: seq<Event>)
    requires HistoryInv(h) && Add(h.ids, key, size, memory).1 >= 0
    requires IsRun(Step(h, DoAdd(key, size, memory)), es)
    ensures var id := Add(h.ids, key, size, memory).1;
            var t := After(Step(h, DoAdd(key, size, memory)), es);
            && id in t.born && h.adds <= t.born[id] < t.adds == |t.keys| && t.keys[h.adds] == key
            && Lookup(t.ids, BuildId(id, h.ids.next)) ==
                 if Occupied(t.ids, id) && (t.born[id] - h.adds) % ROUND == 0
                 then Some(Perm(t.keys[t.born[id]], h.ids.next)) else None
  {
    var h1, id := Step(h, DoAdd(key, size, memory)), Add(h.ids, key, size, memory).1;
    AddedId(h, key, size, memory);
    RunKeeps(h1, es);
    var t := After(h1, es);
    assert id in h1.born && id in t.born;
    LookupBuilt(t.ids, id, h.ids.next);
    SameRound(h.adds, t.born[id]);
  }

  /** A history: the boot, any run, one addition that hands out an id, and any run after it. */
  ghost predicate Story(size0: nat, memory0: bool, before: seq<Event>, e: Event, es: seq<Event>) {
    && e.DoAdd? && IsRun(Booted(size0, memory0), before)
    && var h := After(Booted(size0, memory0), before);
    Add(h.ids, e.key, e.size, e.memory).1 >= 0 && IsRun(Step(h, e), es)
  }

  /** In every history the id finds an object exactly when its position was last filled a whole
      number of rounds of sequence numbers after the addition that handed it out; what it finds is
      the object of that last addition, with the key given then. */
  lemma LookupIff(size0: nat, memory0: bool, before: seq<Event>, e: Event, es: seq<Event>)
    requires Story(size0, memory0, before, e, es)
    ensures var h := After(Booted(size0, memory0), before);
            var id, t := Add(h.ids, e.key, e.size, e.memory).1, After(Step(h, e), es);
            && id in t.born && h.adds <= t.born[id] < t.adds == |t.keys| && t.keys[h.adds] == e.key
            && Lookup(t.ids, BuildId(id, h.ids.next)) ==
                 if Occupied(t.ids, id) && (t.born[id] - h.adds) % ROUND == 0
                 then Some(Perm(t.keys[t.born[id]], h.ids.next)) else None
  {
    var h := After(Booted(size0, memory0), before);
    assert HistoryInv(h) by { RunKeeps(Booted(size0, memory0), before); }
    assert e == DoAdd(e.key, e.size, e.memory);
    LookupAfter(h, e.key, e.size, e.memory, es);
  }

  lemma FirstRound(a: nat, b: nat)
    requires a <= b < a + ROUND
    ensures (b - a) % ROUND == 0 <==> a == b
  {
  }

  /** In every history an id is good for nothing but its own object, which it finds with its key
      as long as it is there, until SEQ_MAX + 1 further objects have been added. */
  lemma StaleIdsAreRejected(size0: nat, memory0: bool, before: seq<Event>, e: Event, es: seq<Event>)
    requires Story(size0, memory0, before, e, es)
    requires var h := After(Booted(size0, memory0), before);
             After(Step(h, e), es).adds - (h.adds + 1) <= SeqMax()
    ensures var h := After(Booted(size0, memory0), before);
            var id, t := Add(h.ids, e.key, e.size, e.memory).1, After(Step(h, e), es);
            && id in t.born
            && Lookup(t.ids, BuildId(id, h.ids.next)) ==
                 if Occupied(t.ids, id) && t.born[id] == h.adds then Some(Perm(e.key, h.ids.next)) else None
  {
    LookupIff(size0, memory0, before, e, es);
    var h := After(Booted(size0, memory0), before);
    var t := After(Step(h, e), es);
    FirstRound(h.adds, t.born[Add(h.ids, e.key, e.size, e.memory).1]);
  }
}
