/** Filehandles named by inode: a cache of where each file was last seen, and the search that makes up for it. */
module ShareInodes {
  import opened Streams
  import opened SharePaths

  datatype Key = Key(dev: nat, ino: nat, gen: nat)

  datatype File = File(key: Key, isDir: bool, readable: bool)

  /** The shared tree as the host holds it, by path; "." is its root. */
  type Host = map<string, File>

  // ----- directories

  predicate IsName(n: string) { n != "" && n != "." && '/' !in n }

  function Join(dir: string, name: string): string {
    if dir == "." then name else dir + "/" + name
  }

  /** A path names one entry of one directory. */
  lemma JoinInjective(d1: string, n1: string, d2: string, n2: string)
    requires IsName(n1) && IsName(n2) && Join(d1, n1) == Join(d2, n2)
    ensures d1 == d2 && n1 == n2
  {
    var x := Join(d1, n1);
    LastSlash(d1, n1);
    LastSlash(d2, n2);
    assert d1 != "." && d2 != "." ==> |d1| == |d2|;
    assert d1 != "." ==> x[..|d1|] == d1 && x[|d1| + 1..] == n1;
    assert d2 != "." ==> x[..|d2|] == d2 && x[|d2| + 1..] == n2;
  }

  lemma LastSlash(d: string, n: string)
    requires IsName(n)
    ensures d == "." ==> forall i | 0 <= i < |Join(d, n)| :: Join(d, n)[i] != '/'
    ensures d != "." ==> Join(d, n)[|d|] == '/' && forall i | |d| < i < |Join(d, n)| :: Join(d, n)[i] != '/'
  {
    assert d != "." ==> forall i | |d| < i < |Join(d, n)| :: Join(d, n)[i] == n[i - |d| - 1];
  }

  predicate IsEntry(x: string, dir: string) {
    if dir == "." then IsName(x) else dir + "/" <= x && IsName(x[|dir| + 1..])
  }

  function EntryName(x: string, dir: string): (n: string)
    requires IsEntry(x, dir)
    ensures IsName(n) && Join(dir, n) == x
  {
    if dir == "." then x else x[|dir| + 1..]
  }

  /** The names a listing of dir gives. */
  function Entries(host: Host, dir: string): (names: set<string>)
    ensures forall n :: n in names <==> IsName(n) && Join(dir, n) in host
  {
    var names := set x | x in host && IsEntry(x, dir) :: EntryName(x, dir);
    assert forall n | IsName(n) && Join(dir, n) in host :: n in names by {
      forall n | IsName(n) && Join(dir, n) in host ensures n in names {
        var x := Join(dir, n);
        assert dir != "." ==> x[..|dir| + 1] == dir + "/" && x[|dir| + 1..] == n;
        assert IsEntry(x, dir) && EntryName(x, dir) == n;
      }
    }
    names
  }

  function Path(names: seq<string>): string {
    if names == [] then "." else Join(Path(names[..|names| - 1]), names[|names| - 1])
  }

  predicate Listable(host: Host, dir: string) {
    dir in host && host[dir].isDir && host[dir].readable
  }

  /** The names lead from the root through directories that can be listed. */
  predicate Leads(host: Host, names: seq<string>) {
    && Path(names) in host
    && (names != [] ==>
          && IsName(names[|names| - 1])
          && Leads(host, names[..|names| - 1])
          && Listable(host, Path(names[..|names| - 1])))
  }

  /** Some file that the listings lead to has the key. */
  ghost predicate Findable(host: Host, k: Key) {
    exists names :: Leads(host, names) && host[Path(names)].key == k
  }

  /** The listings lead to x. */
  ghost predicate Reached(host: Host, x: string) {
    exists names :: Leads(host, names) && Path(names) == x
  }

  lemma ReachEntry(host: Host, dir: string, name: string)
    requires Reached(host, dir) && Listable(host, dir) && name in Entries(host, dir)
    ensures Reached(host, Join(dir, name))
  {
    var names :| Leads(host, names) && Path(names) == dir;
    var more := names + [name];
    assert more[..|names|] == names;
    assert Leads(host, more) && Path(more) == Join(dir, name);
  }

  lemma EntriesReached(host: Host, dir: string)
    requires Reached(host, dir) && Listable(host, dir)
    ensures forall x | x in host && IsEntry(x, dir) :: Reached(host, x)
  {
    forall x | x in host && IsEntry(x, dir) ensures Reached(host, x) {
      ReachEntry(host, dir, EntryName(x, dir));
    }
  }

  // ----- the cache and the search

  function Elements(s: seq<string>): set<string> { set x | x in s }

  /** The cache knows where the file of a key is now. */
  predicate Accurate(cache: map<Key, string>, host: Host, k: Key) {
    k in cache && cache[k] in host && host[cache[k]].key == k
  }

  class Inodes {
    var cache: map<Key, string>

    constructor ()
      ensures cache == map[]
    {
      cache := map[];
    }

    /** Looking at a file notes where it is. */
    method Stat(host: Host, rel: string) returns (key: Option<Key>)
      modifies this
      ensures key == if rel in host then Some(host[rel].key) else None
      ensures cache == if rel in host then old(cache)[host[rel].key := rel] else old(cache)
    {
      if rel !in host {
        return None;
      }
      cache := cache[host[rel].key := rel];
      key := Some(host[rel].key);
    }

    /** Looks at the entries of one directory: finds k, or learns that none is k and which are directories. */
    method Scan(host: Host, k: Key, dir: string) returns (found: Option<string>, dirs: seq<string>)
      modifies this
      ensures found.Some? ==> found.value in host && host[found.value].key == k && IsEntry(found.value, dir)
      ensures found.None? ==> Listing(host, k, dir, {}, dirs)
    {
      dirs, found := [], None;
      var todo := Entries(host, dir);
      while todo != {}
        invariant todo <= Entries(host, dir) && Listing(host, k, dir, todo, dirs) == true
        decreases todo
      {
        var name :| name in todo;
        var rel := Join(dir, name);
        EntryOf(dir, name);
        if host[rel].key.dev == k.dev && host[rel].key.ino == k.ino {
          var key := Stat(host, rel);
          if key == Some(k) {
            return Some(rel), dirs;
          }
        }
        ListingStep(host, k, dir, todo, dirs, name);
        if host[rel].isDir {
          dirs := dirs + [rel];
        }
        todo := todo - {name};
      }
    }

    /** Takes the next directory off the queue and scans it. */
    method Visit(host: Host, k: Key, queue0: seq<string>, ghost done: set<string>)
        returns (found: Option<string>, queue: seq<string>)
      requires queue0 != [] && Waiting(host, queue0, done) && AllScanned(host, k, done, done, queue0)
      modifies this
      ensures found.Some? ==> found.value in host && host[found.value].key == k && Reached(host, found.value)
      ensures found.None? ==> Waiting(host, queue, done + {queue0[0]}) == true
      ensures found.None? ==> AllScanned(host, k, done + {queue0[0]}, done + {queue0[0]}, queue) == true
      ensures found.None? ==> Elements(queue0) <= Elements(queue) + {queue0[0]}
    {
      found := None;
      var dir := queue0[0];
      queue := queue0[1..];
      TakeKeepsWaiting(host, queue0, done);
      TakeKeepsScanned(host, k, queue0, done);
      if !(dir in host && host[dir].isDir && host[dir].readable) {
        NothingListed(host, k, done, dir, queue);
        return;
      }
      FirstReached(host, queue0, done);
      EntriesReached(host, dir);
      var dirs;
      found, dirs := Scan(host, k, dir);
      if found.None? {
        AddKeepsWaiting(host, k, queue0, done, dirs);
        AddKeepsScanned(host, k, done, dir, queue, dirs);
        queue := queue + dirs;
      }
    }

    /** Walks the share for the file k names, breadth first. */
    method Search(host: Host, k: Key) returns (found: Option<string>)
      modifies this
      ensures found.Some? ==> found.value in host && host[found.value].key == k && Reached(host, found.value)
      ensures found.None? ==> !Findable(host, k)
    {
      found := None;
      var queue := ["."];
      var root := Stat(host, ".");
      RootReached(host);
      if root == Some(k) {
        return Some(".");
      }
      ghost var done: set<string> := {};
      while queue != []
        invariant found.None? && Waiting(host, queue, done)
        invariant AllScanned(host, k, done, done, queue)
        invariant "." in done + Elements(queue)
        decreases host.Keys + {"."} - done
      {
        ghost var dir := queue[0];
        found, queue := Visit(host, k, queue, done);
        if found.Some? {
          return;
        }
        done := done + {dir};
      }
      NothingMissed(host, k, done);
    }

    /**
     The file a handle's key names. Whatever the cache holds, a file returned has that key now; and the handle is stale
     exactly when neither the place the cache gives nor any file that can be listed has it.
     */
    method NodeByHandle(host: Host, k: Key) returns (found: Option<string>)
      modifies this
      ensures found.Some? ==> found.value in host && host[found.value].key == k
      ensures found.None? <==> !Accurate(old(cache), host, k) && !Findable(host, k)
      ensures Accurate(old(cache), host, k) ==> found == Some(old(cache)[k])
    {
      ghost var was := cache;
      if k in cache {
        var rel := cache[k];
        var key := Stat(host, rel);
        if key == Some(k) {
          return Some(rel);
        }
      }
      assert !Accurate(was, host, k);
      found := Search(host, k);
      if found.Some? {
        var names :| Leads(host, names) && Path(names) == found.value;
        assert Findable(host, k);
      }
    }

    /** Drops what is remembered about rel and everything under it, in whatever order the map is walked. */
    method Forget(rel: string)
      modifies this
      ensures cache == Forgotten(old(cache), rel)
    {
      var todo := cache.Keys;
      while todo != {}
        invariant todo <= cache.Keys <= old(cache.Keys)
        invariant forall k | k in cache :: cache[k] == old(cache)[k]
        invariant forall k | k in old(cache) :: k in cache <==> k in todo || !Under(old(cache)[k], rel)
        decreases todo
      {
        var k :| k in todo;
        todo := todo - {k};
        if Under(cache[k], rel) {
          cache := cache - {k};
        }
      }
    }

    /** Records a move, in whatever order the map is walked. */
    method NoteMove(from: string, to: string)
      modifies this
      ensures cache == Moved(old(cache), from, to)
    {
      var todo := cache.Keys;
      while todo != {}
        invariant todo <= cache.Keys == old(cache.Keys)
        invariant forall k | k in cache :: cache[k] == if k in todo then old(cache)[k]
                  else Moved(old(cache), from, to)[k]
        decreases todo
      {
        var k :| k in todo;
        todo := todo - {k};
        if Under(cache[k], from) {
          cache := cache[k := Rebase(cache[k], from, to)];
        }
      }
    }

    /** What a successful rename on the host is followed by. */
    method Rename(from: string, to: string)
      modifies this
      ensures cache == if from == to then old(cache) else Renamed(old(cache), from, to)
    {
      if from == to {
        return;
      }
      Forget(to);
      NoteMove(from, to);
    }
  }

  lemma RootReached(host: Host)
    ensures "." in host ==> Reached(host, ".")
  {
    assert Path([]) == ".";
    assert "." in host ==> Leads(host, []);
  }

  lemma NothingMissed(host: Host, k: Key, done: set<string>)
    requires "." in done && ("." in host ==> host["."].key != k) && AllScanned(host, k, done, done, [])
    ensures !Findable(host, k)
  {
    forall names | Leads(host, names) ensures host[Path(names)].key != k {
      AllSeen(host, k, done, names);
    }
  }

  predicate Unique(s: seq<string>) {
    forall i, j | 0 <= i < j < |s| :: s[i] != s[j]
  }

  /**
   Of a directory's names all but those in todo have been looked at: none is k, and dirs are the directories, once each.
   */
  ghost predicate Listing(host: Host, k: Key, dir: string, todo: set<string>, dirs: seq<string>) {
    && (forall i | 0 <= i < |dirs| :: dirs[i] in host && IsEntry(dirs[i], dir) && EntryName(dirs[i], dir) !in todo)
    && Unique(dirs)
    && (forall n | n in Entries(host, dir) && n !in todo ::
          host[Join(dir, n)].key != k && (host[Join(dir, n)].isDir ==> Join(dir, n) in dirs))
  }

  lemma ListingStep(host: Host, k: Key, dir: string, todo: set<string>, dirs: seq<string>, name: string)
    requires Listing(host, k, dir, todo, dirs) && name in todo && name in Entries(host, dir) &&
             host[Join(dir, name)].key != k
    ensures Listing(host, k, dir, todo - {name}, if host[Join(dir, name)].isDir then dirs + [Join(dir, name)] else dirs)
  {
    EntryOf(dir, name);
    var rel := Join(dir, name);
    JoinInjective(dir, EntryName(rel, dir), dir, name);
    assert rel !in dirs;
  }

  ghost predicate Listed(x: string, done: set<string>) {
    exists d | d in done :: IsEntry(x, d)
  }

  /** Everything waiting or done was listed, once, by a directory already done; nothing waits twice. */
  ghost predicate Waiting(host: Host, queue: seq<string>, done: set<string>) {
    && (forall i | 0 <= i < |queue| :: queue[i] in host ==> Reached(host, queue[i]))
    && (forall i | 0 <= i < |queue| :: queue[i] !in done && (queue[i] == "." || queue[i] in host))
    && Unique(queue)
    && (forall x {:trigger Listed(x, done)} | x in done || x in queue :: x == "." || Listed(x, done))
  }

  lemma FirstReached(host: Host, queue: seq<string>, done: set<string>)
    requires Waiting(host, queue, done) && queue != [] && queue[0] in host
    ensures Reached(host, queue[0])
  {
  }

  lemma TakeKeepsWaiting(host: Host, queue: seq<string>, done: set<string>)
    requires Waiting(host, queue, done) && queue != []
    ensures Waiting(host, queue[1..], done + {queue[0]})
  {
    var q, d := queue[1..], done + {queue[0]};
    forall x | x in d || x in q ensures x == "." || Listed(x, d) {
      assert x in done || x in queue;
      assert x == "." || Listed(x, done);
      if x != "." {
        var e :| e in done && IsEntry(x, e);
        assert e in d;
      }
    }
  }

  /** The entries of a directory not yet done are new: no directory done before lists them. */
  lemma EntriesNew(host: Host, queue: seq<string>, done: set<string>, dir: string, x: string)
    requires Waiting(host, queue, done) && dir !in done && IsEntry(x, dir) && x != "."
    ensures x !in done && x !in queue
  {
    if x in done || x in queue {
      assert x == "." || Listed(x, done);
      var d :| d in done && IsEntry(x, d);
      JoinInjective(d, EntryName(x, d), dir, EntryName(x, dir));
    }
  }

  lemma EntryNotRoot(x: string, dir: string)
    requires IsEntry(x, dir)
    ensures x != "."
  {
    if dir != "." {
      assert |x[|dir| + 1..]| == |x| - |dir| - 1 > 0;
      assert |x| != |"."|;
    }
  }

  lemma AddKeepsWaiting(host: Host, k: Key, queue0: seq<string>, done: set<string>, dirs: seq<string>)
    requires queue0 != [] && Waiting(host, queue0, done) && Listing(host, k, queue0[0], {}, dirs)
    requires forall x | x in host && IsEntry(x, queue0[0]) :: Reached(host, x)
    ensures Waiting(host, queue0[1..] + dirs, done + {queue0[0]})
  {
    var dir, queue, done' := queue0[0], queue0[1..], done + {queue0[0]};
    TakeKeepsWaiting(host, queue0, done);
    forall x | x in dirs ensures x !in done' && x !in queue && Listed(x, done') {
      EntryNotRoot(x, dir);
      EntriesNew(host, queue0, done, dir, x);
      assert dir in done' && IsEntry(x, dir);
    }
    forall x | x in done' || x in queue + dirs ensures x == "." || Listed(x, done') {
      assert x in dirs || x in done' || x in queue;
    }
    UniqueConcat(queue, dirs);
  }

  lemma UniqueConcat(a: seq<string>, b: seq<string>)
    requires Unique(a) && Unique(b) && forall x | x in b :: x !in a
    ensures Unique(a + b)
  {
    var s := a + b;
    forall i, j | 0 <= i < j < |s| ensures s[i] != s[j] {
      if i < |a| <= j {
        assert b[j - |a|] in b;
      } else if |a| <= i {
        assert b[i - |a|] != b[j - |a|];
      }
    }
  }

  /** No entry of d is k, and its directories are done or waiting. */
  ghost predicate Scanned(host: Host, k: Key, d: string, seen: set<string>) {
    forall n | n in Entries(host, d) :: host[Join(d, n)].key != k && (host[Join(d, n)].isDir ==> Join(d, n) in seen)
  }

  ghost predicate AllScanned(host: Host, k: Key, scanned: set<string>, done: set<string>, queue: seq<string>) {
    forall d | d in scanned && Listable(host, d) :: Scanned(host, k, d, done + Elements(queue))
  }

  lemma ScannedGrows(host: Host, k: Key, d: string, seen: set<string>, more: set<string>)
    requires Scanned(host, k, d, seen) && seen <= more
    ensures Scanned(host, k, d, more)
  {
  }

  lemma AllScannedGrows(host: Host, k: Key, scanned: set<string>, done: set<string>, queue: seq<string>,
      done': set<string>, queue': seq<string>)
    requires AllScanned(host, k, scanned, done, queue) && done + Elements(queue) <= done' + Elements(queue')
    ensures AllScanned(host, k, scanned, done', queue')
  {
    forall d | d in scanned && Listable(host, d) ensures Scanned(host, k, d, done' + Elements(queue')) {
      ScannedGrows(host, k, d, done + Elements(queue), done' + Elements(queue'));
    }
  }

  lemma TakeKeepsScanned(host: Host, k: Key, queue: seq<string>, done: set<string>)
    requires queue != [] && AllScanned(host, k, done, done, queue)
    ensures AllScanned(host, k, done, done + {queue[0]}, queue[1..])
    ensures Elements(queue) <= Elements(queue[1..]) + {queue[0]}
  {
    AllScannedGrows(host, k, done, done, queue, done + {queue[0]}, queue[1..]);
  }

  lemma NothingListed(host: Host, k: Key, done: set<string>, dir: string, queue: seq<string>)
    requires AllScanned(host, k, done, done + {dir}, queue) && !Listable(host, dir)
    ensures AllScanned(host, k, done + {dir}, done + {dir}, queue)
  {
  }

  lemma AddKeepsScanned(host: Host, k: Key, done: set<string>, dir: string, queue: seq<string>, dirs: seq<string>)
    requires AllScanned(host, k, done, done + {dir}, queue) && Listing(host, k, dir, {}, dirs)
    ensures AllScanned(host, k, done + {dir}, done + {dir}, queue + dirs)
    ensures Elements(queue) <= Elements(queue + dirs)
  {
    AllScannedGrows(host, k, done, done + {dir}, queue, done + {dir}, queue + dirs);
    assert Scanned(host, k, dir, done + {dir} + Elements(queue + dirs));
  }

  lemma {:induction false} AllSeen(host: Host, k: Key, done: set<string>, names: seq<string>)
    requires Leads(host, names) && "." in done && ("." in host ==> host["."].key != k)
    requires AllScanned(host, k, done, done, [])
    ensures host[Path(names)].key != k && (host[Path(names)].isDir ==> Path(names) in done)
  {
    if names != [] {
      var up, name := names[..|names| - 1], names[|names| - 1];
      AllSeen(host, k, done, up);
      assert name in Entries(host, Path(up));
    }
  }

  lemma EntryOf(dir: string, name: string)
    requires IsName(name)
    ensures IsEntry(Join(dir, name), dir)
  {
    var x := Join(dir, name);
    assert dir != "." ==> x[..|dir| + 1] == dir + "/" && x[|dir| + 1..] == name;
  }

  // ----- renames

  lemma MovedBack(host: Host, from: string, to: string)
    ensures forall x | x in host && Under(x, from) ::
              Under(Rebase(x, from, to), to) && Rebase(Rebase(x, from, to), to, from) == x
  {
    forall x | x in host && Under(x, from)
      ensures Under(Rebase(x, from, to), to) && Rebase(Rebase(x, from, to), to, from) == x
    {
      RebaseUnder(x, from, to);
    }
  }

  /** The host's tree after a rename: what was at the target is gone, and the source is there. */
  function HostRenamed(host: Host, from: string, to: string): Host {
    var kept := set x | x in host && !Under(x, from) && !Under(x, to);
    var moved := set x | x in host && Under(x, from) :: Rebase(x, from, to);
    MovedBack(host, from, to);
    map y | y in kept + moved :: if y in kept then host[y] else host[Rebase(y, to, from)]
  }

  /**
   A rename keeps the cache as accurate as it was: a file known at or under the source is known at the corresponding
   path under the target, with the same key and without a search, and one known elsewhere stays known where it was.
   */
  lemma RenameStaysAccurate(cache: map<Key, string>, host: Host, from: string, to: string, k: Key)
    requires Apart(from, to) && Accurate(cache, host, k) && !Under(cache[k], to)
    ensures Accurate(Renamed(cache, from, to), HostRenamed(host, from, to), k)
    ensures Renamed(cache, from, to)[k] == if Under(cache[k], from) then Rebase(cache[k], from, to) else cache[k]
  {
    RenameMoves(cache, from, to, k);
    var x := cache[k];
    if Under(x, from) {
      RebaseUnder(x, from, to);
    }
  }

  /** A file all of whose names were at or under the target is stale after the rename, whatever the cache holds. */
  lemma RenameMakesStale(cache: map<Key, string>, host: Host, from: string, to: string, k: Key)
    requires Apart(from, to) && forall x | x in host && host[x].key == k :: Under(x, to)
    ensures !Accurate(Renamed(cache, from, to), HostRenamed(host, from, to), k)
    ensures !Findable(HostRenamed(host, from, to), k)
  {
    var after := HostRenamed(host, from, to);
    forall y | y in after ensures after[y].key != k {
      MovedBack(host, from, to);
      if !(y in host && !Under(y, from) && !Under(y, to)) {
        var x :| x in host && Under(x, from) && Rebase(x, from, to) == y;
        NotUnderBoth(x, from, to);
      }
    }
  }
}
