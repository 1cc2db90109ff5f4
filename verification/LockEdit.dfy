/** The in-place edit of `posix_lock_file` (fs/locks.c:903-1017) as a function of the
    list, one loop iteration at a time. `done` is the part of the list in front of the
    slot `before`, `rest` the part from the slot on. */
module LockEdit {
  import opened Common
  import opened PosixLocks

  /** `start` and `end` are the caller's current range. Once the caller has become an
      alias of a list record, `alias` is that record's position in `done` and the two
      copies of the range agree. `left` is the position of the record that sticks out
      below the request, -1 when there is none. `woken` collects the records whose block
      lists have been emptied. */
  datatype Cursor = Cursor(done: seq<Lock>, rest: seq<Lock>, start: int, end: int,
                           added: bool, alias: int, left: int, woken: set<nat>)

  datatype Verdict = Go(c: Cursor) | Stop(c: Cursor, right: bool)

  datatype Outcome = Outcome(list: seq<Lock>, woken: set<nat>)

  function Advance(c: Cursor): Cursor
    requires c.rest != []
  {
    c.(done := c.done + [c.rest[0]], rest := c.rest[1..])
  }

  /** Store the caller's new range, through the alias if there is one. */
  function SetCaller(c: Cursor, s: int, e: int): Cursor {
    var d := if 0 <= c.alias < |c.done| then c.done[c.alias := c.done[c.alias].(start := s, end := e)] else c.done;
    c.(done := d, start := s, end := e)
  }

  /** `locks_delete_lock(before, 0)`. */
  function Delete(c: Cursor): Cursor
    requires c.rest != []
  {
    c.(rest := c.rest[1..], woken := c.woken + {c.rest[0].id})
  }

  /** The record at the slot takes the caller's range and type, and becomes the caller. */
  function Adopt(c: Cursor, t: LockType, s: int, e: int): Cursor
    requires c.rest != []
  {
    c.(done := c.done + [c.rest[0].(typ := t, start := s, end := e)], rest := c.rest[1..],
       start := s, end := e, added := true, alias := |c.done|)
  }

  /** One iteration of the loop over the caller's own locks. */
  function Next(c: Cursor, o: Owner, t: LockType): Verdict {
    if c.rest == [] || c.rest[0].owner != o then
      Stop(c, false)
    else
      var fl := c.rest[0];
      if fl.typ == t then
        if fl.end < c.start - 1 then
          Go(Advance(c))
        else if fl.start > Succ(c.end) then
          Stop(c, false)
        else
          var s, e := Min(fl.start, c.start), Max(fl.end, c.end);
          if c.added then Go(Delete(SetCaller(c, s, e))) else Go(Adopt(c, t, s, e))
      else if fl.end < c.start then
        Go(Advance(c))
      else if fl.start > c.end then
        Stop(c, false)
      else
        var c1 := c.(added := c.added || t == UnLck,
                     left := if fl.start < c.start then |c.done| else c.left);
        if fl.end > c.end then
          Stop(c1, true)
        else if fl.start < c.start then
          Go(Advance(c1))
        else if c1.added then
          Go(Delete(c1))
        else
          Go(Adopt(c1, t, c.start, c.end).(woken := c.woken + {fl.id}))
  }

  function TrimEnd(l: seq<Lock>, i: int, e: int): seq<Lock> {
    if 0 <= i < |l| then l[i := l[i].(end := e)] else l
  }

  function LeftIds(l: seq<Lock>, i: int): set<nat> {
    if 0 <= i < |l| then {l[i].id} else {}
  }

  /** `left->fl_end = caller->fl_start - 1`, when `left` is in front of the slot. */
  function Lower(c: Cursor): seq<Lock> {
    TrimEnd(c.done, c.left, c.start - 1)
  }

  /** The second half of a record that the request cuts in two needs a new record for
      its first half. */
  function Split(c: Cursor, right: bool, newId: nat): seq<Lock>
    requires right ==> c.rest != []
  {
    if right && c.left == |c.done| then [c.rest[0].(id := newId + 1, end := c.start - 1)] else []
  }

  function Inserted(c: Cursor, o: Owner, t: LockType, newId: nat): seq<Lock> {
    if c.added then [] else [Lock(newId, o, t, c.start, c.end)]
  }

  /** `right->fl_start = caller->fl_end + 1`. */
  function Upper(c: Cursor, right: bool): seq<Lock>
    requires right ==> c.rest != []
  {
    if right then [c.rest[0].(start := Succ(c.end))] + c.rest[1..] else c.rest
  }

  /** The edits after the loop: insert the new lock, split or shrink the neighbours. */
  function Finish(c: Cursor, right: bool, o: Owner, t: LockType, newId: nat): Outcome
    requires right ==> c.rest != []
  {
    if !c.added && t == UnLck then
      Outcome(c.done + c.rest, c.woken)
    else
      Outcome(Lower(c) + Split(c, right, newId) + Inserted(c, o, t, newId) + Upper(c, right),
              c.woken + (if right then {c.rest[0].id} else {})
              + (if Split(c, right, newId) != [] then {newId + 1} else LeftIds(c.done, c.left)))
  }

  function Walk(c: Cursor, o: Owner, t: LockType, newId: nat): Outcome
    decreases |c.rest|
  {
    match Next(c, o, t)
    case Go(c1) => Walk(c1, o, t, newId)
    case Stop(c1, right) => Finish(c1, right, o, t, newId)
  }

  /** The first loop: skip locks of other owners. */
  function FirstOwn(l: seq<Lock>, o: Owner): (k: nat)
    ensures k <= |l| && (k < |l| ==> l[k].owner == o)
    ensures forall i :: 0 <= i < k ==> l[i].owner != o
  {
    if l == [] || l[0].owner == o then 0 else 1 + FirstOwn(l[1..], o)
  }

  function Start(l: seq<Lock>, r: Request): Cursor {
    var k := FirstOwn(l, r.owner);
    Cursor(l[..k], l[k..], r.start, r.end, false, -1, -1, {})
  }

  function Apply(l: seq<Lock>, r: Request, newId: nat): Outcome {
    Walk(Start(l, r), r.owner, r.typ, newId)
  }
}
