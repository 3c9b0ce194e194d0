/** A share's table of path numbers: two maps kept inverse, and the log from which they are rebuilt. */
module PathTable {
  import opened Streams
  import opened SharePaths

  const MAX := 0xffff_ffff_ffff_ffff  // the largest uint64

  /** A line of the table's file. */
  datatype Record = NextLine(id: nat) | SetLine(id: nat, path: string) | DelLine(id: nat)

  datatype Table = Table(byID: map<nat, string>, byPath: map<string, nat>, next: nat)

  function Max(a: nat, b: nat): nat { if a < b then b else a }

  /** id + 1 in 64 bits. */
  function Succ(id: nat): nat { if id == MAX then 0 else id + 1 }

  function Set(t: Table, id: nat, p: string): Table {
    var byPath := if id in t.byID then t.byPath - {t.byID[id]} else t.byPath;
    Table(t.byID[id := p], byPath[p := id], Max(t.next, Succ(id)))
  }

  /** An unknown id looks up as the empty path. */
  function Del(t: Table, id: nat): Table {
    Table(t.byID - {id}, t.byPath - {if id in t.byID then t.byID[id] else ""}, t.next)
  }

  function Do(t: Table, r: Record): Table {
    match r
    case NextLine(id) => t.(next := Max(t.next, id))
    case SetLine(id, p) => Set(t, id, p)
    case DelLine(id) => Del(t, id)
  }

  const EMPTY := Table(map[], map[], 1)

  function Replay(log: seq<Record>): Table {
    if log == [] then EMPTY else Do(Replay(log[..|log| - 1]), log[|log| - 1])
  }

  lemma ReplaySnoc(log: seq<Record>, r: Record)
    ensures Replay(log + [r]) == Do(Replay(log), r)
  {
    assert (log + [r])[..|log|] == log;
  }

  /** Each path has one number and each number one path. */
  predicate Inverse(byID: map<nat, string>, byPath: map<string, nat>) {
    && (forall id | id in byID :: byID[id] in byPath && byPath[byID[id]] == id)
    && (forall p | p in byPath :: byPath[p] in byID && byID[byPath[p]] == p)
  }

  /** Every number handed out is below next, until the last uint64 has been. */
  predicate Below(used: set<nat>, next: nat) {
    1 <= next <= MAX && forall id | id in used :: id < next || id == next == MAX
  }

  /** Setting keeps the maps inverse unless the path is another number's: why a rename first forgets its target. */
  lemma SetKeepsInverse(t: Table, id: nat, p: string)
    requires Inverse(t.byID, t.byPath)
    ensures Inverse(Set(t, id, p).byID, Set(t, id, p).byPath) <==> (p in t.byPath ==> t.byPath[p] == id)
  {
    var s := Set(t, id, p);
    if p in t.byPath && t.byPath[p] != id {
      assert s.byID[t.byPath[p]] == p && s.byPath[p] == id;
    }
  }

  /** Deleting keeps them inverse unless the number is unknown and the empty path is numbered. */
  lemma DelKeepsInverse(t: Table, id: nat)
    requires Inverse(t.byID, t.byPath)
    ensures Inverse(Del(t, id).byID, Del(t, id).byPath) <==> id in t.byID || "" !in t.byPath
  {
    if id !in t.byID && "" in t.byPath {
      assert Del(t, id).byID[t.byPath[""]] == "";
    }
  }

  lemma HandingOut(used: set<nat>, next: nat)
    requires Below(used, next)
    ensures Below(used + {next}, Max(next, Succ(next)))
    ensures next in used <==> MAX in used
    ensures next in used ==> next == MAX
  {
  }

  lemma BelowPart(part: set<nat>, used: set<nat>, next: nat)
    requires part <= used && Below(used, next)
    ensures Below(part, next)
  {
  }

  /** Reads a file line by line. */
  method Load(file: seq<Record>) returns (t: Table)
    ensures t == Replay(file)
  {
    t := EMPTY;
    for n := 0 to |file|
      invariant t == Replay(file[..n])
    {
      t := Do(t, file[n]);
      assert file[..n + 1] == file[..n] + [file[n]];
      ReplaySnoc(file[..n], file[n]);
    }
    assert file[..|file|] == file;
  }

  /** The compacted file of a table: next, then a line for each number, in whatever order the map is walked. */
  method Rewrite(t: Table) returns (out: seq<Record>)
    requires Below(t.byID.Keys, t.next)
    ensures Replay(out).byID == t.byID && Replay(out).next == t.next
    ensures Inverse(t.byID, t.byPath) ==> Replay(out) == t
  {
    var todo := t.byID.Keys;
    ghost var ids := [];
    out := [NextLine(t.next)];
    while todo != {}
      invariant todo <= t.byID.Keys && Elements(ids) == t.byID.Keys - todo && Distinct(ids)
      invariant out == Compact(t.byID, t.next, ids)
      decreases todo
    {
      var id :| id in todo;
      todo := todo - {id};
      out := out + [SetLine(id, t.byID[id])];
      assert (ids + [id])[..|ids|] == ids;
      ids := ids + [id];
    }
    CompactNumbers(t, ids);
    assert Only(t.byID, t.byID.Keys) == t.byID;
    if Inverse(t.byID, t.byPath) {
      CompactReplays(t, ids);
      assert Part(t, t.byID.Keys) == t;
    }
  }

  /** A line for a number at or under p cannot be written. */
  ghost predicate Loses(byID: map<nat, string>, p: string, lost: set<nat>) {
    exists id :: id in lost && id in byID && Under(byID[id], p)
  }

  /** All numbers of a file were handed out, and its next is beyond them. */
  ghost predicate LogOK(log: seq<Record>, used: set<nat>, next: nat) {
    Replay(log).byID.Keys <= used && Replay(log).next == next
  }

  lemma LogStays(log: seq<Record>, r: Record, used: set<nat>, next: nat)
    requires LogOK(log, used, next) && Below(used, next) && (r.DelLine? || (r.SetLine? && r.id in used))
    ensures LogOK(log + [r], used, next) && Replay(log + [r]) == Do(Replay(log), r)
  {
    ReplaySnoc(log, r);
  }

  class Numbering {
    var next: nat
    var byID: map<nat, string>
    var byPath: map<string, nat>
    var log: seq<Record>        // the file's lines

    ghost var used: set<nat>    // every number ever handed out

    ghost function State(): Table
      reads this
    {
      Table(byID, byPath, next)
    }

    /** Every number, in memory or in the file, was handed out, and next is beyond them in both. */
    ghost predicate Valid()
      reads this
    {
      byID.Keys <= used && Below(used, next) && LogOK(log, used, next)
    }

    ghost predicate Paired()
      reads this
    {
      Inverse(byID, byPath)
    }

    /** The file replays to what is in memory. */
    ghost predicate Synced()
      reads this
    {
      Replay(log) == State()
    }

    /** A table that was never written. */
    constructor ()
      ensures Valid() && Paired() && Synced() && State() == EMPTY && used == {}
    {
      next, byID, byPath, log := 1, map[], map[], [];
      used := {};
    }

    /**
     Opens the table of a file: replays it, then rewrites it compacted. Next is not lost, nor anything of paired maps.
     */
    constructor Open(file: seq<Record>, ghost handedOut: set<nat>)
      requires Replay(file).byID.Keys <= handedOut && Below(handedOut, Replay(file).next)
      ensures Valid() && State() == Replay(file) && used == handedOut
      ensures Paired() ==> Synced()
    {
      var t := Load(file);
      BelowPart(t.byID.Keys, handedOut, t.next);
      var out := Rewrite(t);
      next, byID, byPath, log := t.next, t.byID, t.byPath, out;
      used := handedOut;
    }

    /** A line is written to the file, or cannot be, which is not noticed; in memory it is done in any case. */
    method SetEntry(id: nat, p: string, written: bool)
      requires Valid() && id in used
      modifies `next, `byID, `byPath, `log
      ensures Valid() && State() == Set(old(State()), id, p) && next == old(next)
      ensures log == if written then old(log) + [SetLine(id, p)] else old(log)
      ensures old(Paired()) && (p in old(byPath) ==> old(byPath)[p] == id) ==> Paired()
    {
      LogStays(log, SetLine(id, p), used, next);
      if Inverse(byID, byPath) {
        SetKeepsInverse(State(), id, p);
      }
      if written {
        log := log + [SetLine(id, p)];
      }
      if id in byID {
        byPath := byPath - {byID[id]};
      }
      byID := byID[id := p];
      byPath := byPath[p := id];
      next := Max(next, Succ(id));
    }

    method DelEntry(id: nat, written: bool)
      requires Valid() && id in byID
      modifies `byID, `byPath, `log
      ensures Valid() && State() == Del(old(State()), id)
      ensures log == if written then old(log) + [DelLine(id)] else old(log)
      ensures old(Paired()) ==> Paired()
    {
      LogStays(log, DelLine(id), used, next);
      if Inverse(byID, byPath) {
        DelKeepsInverse(State(), id);
      }
      if written {
        log := log + [DelLine(id)];
      }
      byPath := byPath - {byID[id]};
      byID := byID - {id};
    }

    /**
     The number of a path. A new path's is one never handed out before, unless the last uint64 already was: from then on
     every new path gets that same number. A write that fails changes nothing.
     */
    method IdFor(p: string, writes: bool) returns (id: nat, ok: bool)
      requires Valid()
      modifies this
      ensures Valid() && (old(Paired()) ==> Paired()) && (old(Synced()) ==> Synced())
      ensures ok == (p in old(byPath) || writes)
      ensures ok ==> p in byPath && byPath[p] == id
      ensures p in old(byPath) || !ok ==> State() == old(State()) && log == old(log) && used == old(used)
      ensures p !in old(byPath) && ok ==> State() == Set(old(State()), id, p) && byID[id] == p
      ensures p !in old(byPath) && ok ==> used == old(used) + {id}
      ensures p !in old(byPath) && ok ==> id == old(next)
      ensures p !in old(byPath) && ok ==> (id in old(used) <==> MAX in old(used)) && (id in old(used) ==> id == MAX)
    {
      if p in byPath {
        return byPath[p], true;
      }
      if !writes {
        return 0, false;
      }
      id, ok := next, true;
      ReplaySnoc(log, SetLine(id, p));
      if Inverse(byID, byPath) {
        SetKeepsInverse(State(), id, p);
      }
      HandingOut(used, next);
      used := used + {id};
      log := log + [SetLine(id, p)];
      if id in byID {
        byPath := byPath - {byID[id]};
      }
      byID := byID[id := p];
      byPath := byPath[p := id];
      next := Max(next, Succ(id));
    }

    /** One number is forgotten if its path is at or under p. */
    method RemoveOne(p: string, id: nat, lost: set<nat>)
      requires Valid() && id in byID
      modifies `byID, `byPath, `log
      ensures Valid() && byID == if Under(old(byID)[id], p) then old(byID) - {id} else old(byID)
      ensures old(Paired()) ==> Paired()
      ensures !(Under(old(byID)[id], p) && id in lost) && old(Synced()) ==> Synced()
      ensures forall t | t != id :: t in Replay(log).byID <==> t in old(Replay(log).byID)
      ensures Under(old(byID)[id], p) && id in lost ==> log == old(log)
    {
      if Under(byID[id], p) {
        ReplaySnoc(log, DelLine(id));
        DelEntry(id, id !in lost);
      }
    }

    /**
     Forgets p and everything under it, in whatever order the map is walked. The file still replays to what is in memory
     if and only if every line could be written.
     */
    method Remove(p: string, lost: set<nat>)
      requires Valid()
      modifies `byID, `byPath, `log
      ensures Valid() && byID == Forgotten(old(byID), p) && (old(Paired()) ==> Paired())
      ensures old(Synced()) && !Loses(old(byID), p, lost) ==> Synced()
      ensures old(Synced()) && Loses(old(byID), p, lost) ==> exists t :: t in Replay(log).byID && t !in byID
    {
      var todo := byID.Keys;
      ghost var gone := None;
      while todo != {}
        invariant Valid() == true && todo <= byID.Keys <= old(byID.Keys) && (old(Paired()) ==> Paired() == true)
        invariant forall id | id in byID :: byID[id] == old(byID)[id]
        invariant forall id | id in old(byID) :: id in byID <==> id in todo || !Under(old(byID)[id], p)
        invariant old(Synced()) && gone.None? ==> Synced()
        invariant old(Synced()) && gone.None? ==>
                    forall id | id in old(byID) && id !in todo && id in lost :: !Under(old(byID)[id], p)
        invariant old(Synced()) && gone.Some? ==>
                    gone.value in Replay(log).byID && gone.value !in byID && gone.value in old(byID)
                    && gone.value in lost && Under(old(byID)[gone.value], p)
        decreases todo
      {
        var id :| id in todo;
        todo := todo - {id};
        if gone.None? && Under(byID[id], p) && id in lost {
          gone := Some(id);
        }
        RemoveOne(p, id, lost);
      }
    }

    /** Gives one number's path its new place. */
    method MoveOne(p: string, q: string, id: nat, lost: set<nat>,
                   ghost m: map<nat, string>, ghost todo: set<nat>, ghost was: Option<nat>)
                       returns (ghost stale: Option<nat>)
      requires Valid() && Apart(p, q) && id in todo && Moving(m, byID, todo, p, q)
      modifies `next, `byID, `byPath, `log
      ensures Valid() == true && next == old(next) && Moving(m, byID, todo - {id}, p, q) == true
      ensures old(Paired()) && Injective(m) && Free(m, q) ==> Paired() == true
      ensures SameBut(old(Replay(log)).byID, Replay(log).byID, id)
      ensures old(Tracks(m, todo, p, lost, Replay(log), State(), was)) ==>
                Tracks(m, todo - {id}, p, lost, Replay(log), State(), stale) == true
    {
      ghost var before, filed, now := byID, Replay(log), State();
      stale := if was.None? && Under(m[id], p) && id in lost then Some(id) else was;
      if Under(byID[id], p) {
        var np := Rebase(byID[id], p, q);
        LogStays(log, SetLine(id, np), used, next);
        SetSameBut(Replay(log), id, np);
        TargetFree(m, byID, byPath, todo, p, q, id);
        SetEntry(id, np, id !in lost);
      }
      MovingStep(m, before, byID, todo, p, q, id);
      TracksStep(m, todo, p, q, lost, filed, now, id, was);
    }

    /**
     Renames p and everything under it to q, keeping the numbers, in whatever order the map is walked. The file still
     replays to what is in memory if and only if every line could be written.
     */
    method Move(p: string, q: string, lost: set<nat>)
      requires Valid() && Apart(p, q)
      modifies `next, `byID, `byPath, `log
      ensures Valid() && byID == Moved(old(byID), p, q) && next == old(next)
      ensures old(Paired()) && Free(old(byID), q) ==> Paired()
      ensures old(Synced()) ==> (Synced() <==> !Loses(old(byID), p, lost))
      ensures SameOutside(old(byID), old(Replay(log).byID), Replay(log).byID)
    {
      var todo := byID.Keys;
      ghost var m, stale := byID, None;
      InverseInjective(byID, byPath);
      while todo != {}
        invariant Valid() == true && next == old(next) && Moving(m, byID, todo, p, q) == true
        invariant old(Paired()) && Free(m, q) ==> Paired() == true
        invariant SameOutside(m, old(Replay(log).byID), Replay(log).byID) == true
        invariant old(Synced()) ==> Tracks(m, todo, p, lost, Replay(log), State(), stale) == true
        decreases todo
      {
        var id :| id in todo;
        stale := MoveOne(p, q, id, lost, m, todo, stale);
        todo := todo - {id};
      }
      TracksShows(m, p, q, lost, Replay(log), State(), stale);
    }

    /**
     What a successful rename on the host is followed by. The file still replays to what is in memory if and only if no
     line for the source or the target was lost.
     */
    method Rename(from: string, to: string, lost: set<nat>)
      requires Valid() && (from == to || Apart(from, to))
      modifies `next, `byID, `byPath, `log
      ensures Valid() && next == old(next) && (old(Paired()) ==> Paired())
      ensures byID == if from == to then old(byID) else Renamed(old(byID), from, to)
      ensures old(Synced()) ==>
                (Synced() <==> from == to || !(Loses(old(byID), from, lost) || Loses(old(byID), to, lost)))
    {
      if from == to {
        return;
      }
      ghost var m := byID;
      Remove(to, lost);
      ForgottenLoses(m, from, to, lost);
      Move(from, to, lost);
    }
  }

  // ----- opening the file again

  /** The numbers of a list. */
  function Elements(ids: seq<nat>): set<nat> {
    if ids == [] then {} else Elements(ids[..|ids| - 1]) + {ids[|ids| - 1]}
  }

  predicate Distinct(ids: seq<nat>) {
    ids != [] ==> Distinct(ids[..|ids| - 1]) && ids[|ids| - 1] !in Elements(ids[..|ids| - 1])
  }

  /** The compacted file: next, then a line for each number. */
  function Compact(byID: map<nat, string>, next: nat, ids: seq<nat>): seq<Record>
    requires Elements(ids) <= byID.Keys
  {
    if ids == [] then [NextLine(next)]
    else
      var last := ids[|ids| - 1];
      Compact(byID, next, ids[..|ids| - 1]) + [SetLine(last, byID[last])]
  }

  /** Restricted to some of its numbers. */
  function Part(t: Table, ids: set<nat>): Table {
    Table(map id | id in t.byID && id in ids :: t.byID[id],
          map p | p in t.byPath && t.byPath[p] in ids :: t.byPath[p], t.next)
  }

  function Only(byID: map<nat, string>, ids: set<nat>): map<nat, string> {
    map id | id in byID && id in ids :: byID[id]
  }

  lemma OnlyGrows(byID: map<nat, string>, ids: set<nat>, id: nat)
    requires id in byID
    ensures Only(byID, ids)[id := byID[id]] == Only(byID, ids + {id})
  {
  }

  lemma SetNumber(t: Table, id: nat, p: string, used: set<nat>)
    requires Below(used, t.next) && id in used
    ensures Set(t, id, p).byID == t.byID[id := p] && Set(t, id, p).next == t.next
  {
  }

  /** Replaying the lines of some numbers gives those numbers and the full next, paired or not. */
  lemma {:induction false} CompactNumbers(t: Table, ids: seq<nat>)
    requires Below(t.byID.Keys, t.next) && Elements(ids) <= t.byID.Keys
    ensures var r := Replay(Compact(t.byID, t.next, ids)); r.byID == Only(t.byID, Elements(ids)) && r.next == t.next
  {
    if ids == [] {
      ReplaySnoc([], NextLine(t.next));
      assert [] + [NextLine(t.next)] == Compact(t.byID, t.next, ids);
    } else {
      var last, rest := ids[|ids| - 1], ids[..|ids| - 1];
      assert last in t.byID.Keys;
      CompactNumbers(t, rest);
      var before := Compact(t.byID, t.next, rest);
      ReplaySnoc(before, SetLine(last, t.byID[last]));
      SetNumber(Replay(before), last, t.byID[last], t.byID.Keys);
      OnlyGrows(t.byID, Elements(rest), last);
    }
  }

  lemma PartGrows(t: Table, ids: set<nat>, id: nat)
    requires Inverse(t.byID, t.byPath) && Below(t.byID.Keys, t.next) && id in t.byID && id !in ids
    ensures Set(Part(t, ids), id, t.byID[id]) == Part(t, ids + {id})
  {
    var s, part := Set(Part(t, ids), id, t.byID[id]), Part(t, ids + {id});
    assert s.byID == part.byID;
    assert s.byPath == part.byPath;
    assert id in t.byID.Keys;
  }

  /** Replaying the lines of some numbers, in any order, gives those numbers and the full next. */
  lemma {:induction false} CompactReplays(t: Table, ids: seq<nat>)
    requires Inverse(t.byID, t.byPath) && Below(t.byID.Keys, t.next)
    requires Elements(ids) <= t.byID.Keys && Distinct(ids)
    ensures Replay(Compact(t.byID, t.next, ids)) == Part(t, Elements(ids))
  {
    if ids == [] {
      ReplaySnoc([], NextLine(t.next));
      assert [] + [NextLine(t.next)] == Compact(t.byID, t.next, ids);
    } else {
      var last, rest := ids[|ids| - 1], ids[..|ids| - 1];
      CompactReplays(t, rest);
      ReplaySnoc(Compact(t.byID, t.next, rest), SetLine(last, t.byID[last]));
      PartGrows(t, Elements(rest), last);
    }
  }

  /** Part of the way through moving p to q: the numbers in todo are still to do. */
  ghost predicate Moving(m: map<nat, string>, byID: map<nat, string>, todo: set<nat>, p: string, q: string) {
    && todo <= byID.Keys == m.Keys
    && (forall i | i in m :: byID[i] == if i in todo then m[i] else Moved(m, p, q)[i])
  }

  /** No path has two numbers. */
  ghost predicate Injective(m: map<nat, string>) {
    exists number: map<string, nat> :: NumberedBy(m, number)
  }

  predicate NumberedBy(m: map<nat, string>, number: map<string, nat>) {
    forall i | i in m :: m[i] in number && number[m[i]] == i
  }

  lemma InverseInjective(byID: map<nat, string>, byPath: map<string, nat>)
    ensures Inverse(byID, byPath) ==> Injective(byID)
  {
    if Inverse(byID, byPath) {
      assert NumberedBy(byID, byPath);
    }
  }

  /** No number's path is at or under q. */
  predicate Free(m: map<nat, string>, q: string) {
    forall i | i in m :: !Under(m[i], q)
  }

  ghost predicate SameBut(a: map<nat, string>, b: map<nat, string>, id: nat) {
    forall t | t != id && (t in a || t in b) :: t in a && t in b && a[t] == b[t]
  }

  lemma SetSameBut(t: Table, id: nat, p: string)
    ensures SameBut(t.byID, Set(t, id, p).byID, id)
  {
  }

  lemma MovingStep(m: map<nat, string>, before: map<nat, string>, byID: map<nat, string>, todo: set<nat>,
                   p: string, q: string, id: nat)
    requires Moving(m, before, todo, p, q) && id in todo
    requires byID == if Under(before[id], p) then before[id := Rebase(before[id], p, q)] else before
    ensures Moving(m, byID, todo - {id}, p, q)
  {
  }

  ghost predicate SameOutside(m: map<nat, string>, a: map<nat, string>, b: map<nat, string>) {
    forall t | t !in m :: t in b <==> t in a
  }

  /** No line was lost for a number that is done. */
  ghost predicate NoneLost(m: map<nat, string>, todo: set<nat>, p: string, lost: set<nat>) {
    forall id | id in m && id !in todo && id in lost :: !Under(m[id], p)
  }

  /** The file still has a moved number at its old path. */
  ghost predicate Stale(m: map<nat, string>, filed: map<nat, string>, t: nat, todo: set<nat>, p: string,
      lost: set<nat>) {
    t in m && t !in todo && t in lost && Under(m[t], p) && t in filed && filed[t] == m[t]
  }

  /** The file is as the memory, no line being lost; or a number was lost and still shows it. */
  ghost predicate Tracks(m: map<nat, string>, todo: set<nat>, p: string, lost: set<nat>, filed: Table, now: Table,
      stale: Option<nat>)
  {
    match stale
    case None => filed == now && NoneLost(m, todo, p, lost)
    case Some(t) => Stale(m, filed.byID, t, todo, p, lost)
  }

  lemma TracksStep(m: map<nat, string>, todo: set<nat>, p: string, q: string, lost: set<nat>, filed: Table, now: Table,
                   id: nat, was: Option<nat>)
    requires id in todo && id in m && id in now.byID && now.byID[id] == m[id]
    ensures var stale := if was.None? && Under(m[id], p) && id in lost then Some(id) else was;
      Tracks(m, todo, p, lost, filed, now, was) ==>
        if !Under(m[id], p) then Tracks(m, todo - {id}, p, lost, filed, now, stale)
        else
          var np := Rebase(m[id], p, q);
          Tracks(m, todo - {id}, p, lost, if id in lost then filed else Set(filed, id, np), Set(now, id, np), stale)
  {
  }

  lemma TracksShows(m: map<nat, string>, p: string, q: string, lost: set<nat>, filed: Table, now: Table,
      stale: Option<nat>)
    requires now.byID == Moved(m, p, q) && Apart(p, q)
    ensures Tracks(m, {}, p, lost, filed, now, stale) ==> (filed == now <==> !Loses(m, p, lost))
  {
    if Tracks(m, {}, p, lost, filed, now, stale) && stale.Some? {
      RebaseUnder(m[stale.value], p, q);
      NotUnderBoth(m[stale.value], p, q);
      assert Loses(m, p, lost);
    }
  }

  /** Forgetting the target first loses no line of the source. */
  lemma ForgottenLoses(m: map<nat, string>, from: string, to: string, lost: set<nat>)
    requires Apart(from, to)
    ensures Loses(Forgotten(m, to), from, lost) <==> Loses(m, from, lost)
    ensures Free(Forgotten(m, to), to)
  {
    forall id | id in m ensures !(Under(m[id], from) && Under(m[id], to)) {
      NotUnderBoth(m[id], from, to);
    }
  }

  /** While a path's numbers are being moved, the place of the next one is not taken. */
  lemma TargetFree(m: map<nat, string>, byID: map<nat, string>, byPath: map<string, nat>, todo: set<nat>,
                   p: string, q: string, id: nat)
    requires Apart(p, q) && Moving(m, byID, todo, p, q) && id in todo && Under(m[id], p)
    ensures Inverse(byID, byPath) && Injective(m) && Free(m, q) ==> Rebase(m[id], p, q) !in byPath
  {
    if Inverse(byID, byPath) && Injective(m) && Free(m, q) {
      var number :| NumberedBy(m, number);
      var np := Rebase(m[id], p, q);
      RebaseUnder(m[id], p, q);
      if np in byPath {
        var j := byPath[np];
        if j !in todo && Under(m[j], p) {
          RebaseUnder(m[j], p, q);
        }
        NotUnderBoth(np, p, q);
      }
    }
  }

  // ----- the last number

  /** Once the last uint64 is next it stays so: the next new path takes the number from the one before. */
  lemma LastRepeats(t: Table, p: string, q: string)
    requires t.next == MAX && p != q
    ensures var one := Set(t, t.next, p);
      var two := Set(one, one.next, q);
      one.next == two.next == MAX && one.byPath[p] == MAX && two.byPath[q] == MAX && p !in two.byPath &&
          two.byID[MAX] == q
  {
  }

  /** A file of one line from which two new paths get the same number. */
  method NumberTwice() returns (first: nat, second: nat)
    ensures first == second == MAX
  {
    var file := [NextLine(MAX)];
    assert file == [] + [NextLine(MAX)];
    ReplaySnoc([], NextLine(MAX));
    var t := new Numbering.Open(file, {});
    var ok;
    first, ok := t.IdFor("a", true);
    second, ok := t.IdFor("b", true);
  }

  // ----- runs

  /** writes: the line can be written; lost: the numbers whose lines cannot. */
  datatype Operation =
    | Number(path: string, writes: bool) | Forget(path: string, lost: set<nat>)
    | RenameTo(from: string, to: string, lost: set<nat>) | Restart

  predicate OperationOK(o: Operation) {
    o.RenameTo? ==> o.from == o.to || Apart(o.from, o.to)
  }

  /** Every line that is to be written can be. */
  predicate LosesNothing(o: Operation) {
    (o.Forget? || o.RenameTo?) ==> o.lost == {}
  }

  /** A restart: the table is what the file replays to. */
  method Reopen(t: Numbering) returns (r: Numbering)
    requires t.Valid()
    ensures fresh(r) && r.Valid() && r.State() == Replay(t.log) && r.used == t.used
    ensures t.Synced() && t.Paired() ==> r.State() == t.State() && r.Paired() && r.Synced()
  {
    r := new Numbering.Open(t.log, t.used);
  }

  /** One operation; the number is one that was handed to a new path. */
  method Operate(t: Numbering, o: Operation) returns (r: Numbering, id: Option<nat>)
    requires t.Valid() && OperationOK(o)
    modifies t
    ensures r.Valid() && (r == t || fresh(r))
    ensures r.used == if id.Some? then old(t.used) + {id.value} else old(t.used)
    ensures id.Some? && id.value in old(t.used) ==> id.value == MAX
    ensures old(t.Synced() && t.Paired()) && LosesNothing(o) ==> r.Synced() && r.Paired()
  {
    r, id := t, None;
    match o
    case Number(p, writes) =>
      var known := p in t.byPath;
      var n, ok := t.IdFor(p, writes);
      if ok && !known {
        id := Some(n);
      }
    case Forget(p, lost) => t.Remove(p, lost);
    case RenameTo(from, to, lost) => t.Rename(from, to, lost);
    case Restart => r := Reopen(t);
  }

  /**
   Any run of numbering, forgetting, renaming and restarting, whatever lines are lost: the numbers handed to new paths,
   in order, never repeat, save for the last uint64. With no line lost, memory and file agree and the maps are inverse.
   */
  method Drive(operations: seq<Operation>) returns (handed: seq<nat>, t: Numbering)
    requires forall i | 0 <= i < |operations| :: OperationOK(operations[i])
    ensures forall i, j | 0 <= i < j < |handed| && handed[i] == handed[j] :: handed[i] == MAX
    ensures fresh(t) && t.Valid()
    ensures (forall i | 0 <= i < |operations| :: LosesNothing(operations[i])) ==> t.Synced() && t.Paired()
  {
    t := new Numbering();
    handed := [];
    for n := 0 to |operations|
      invariant t.Valid() == true && fresh(t) && t.used == (set id | id in handed)
      invariant forall i, j | 0 <= i < j < |handed| && handed[i] == handed[j] :: handed[i] == MAX
      invariant (forall i | 0 <= i < n :: LosesNothing(operations[i])) ==> t.Synced() == t.Paired() == true
    {
      var id;
      t, id := Operate(t, operations[n]);
      if id.Some? {
        handed := handed + [id.value];
      }
    }
  }
}
