/** Where inode handles lead after a rename, whatever the cache holds. */
module ShareRenames {
  import opened Streams
  import opened SharePaths
  import opened ShareInodes

  /** Names that a path can be made of. */
  predicate AllNames(names: seq<string>) {
    forall i | 0 <= i < |names| :: IsName(names[i])
  }

  /** Down from a directory, name by name. */
  function Walk(dir: string, names: seq<string>): string {
    if names == [] then dir else Join(Walk(dir, names[..|names| - 1]), names[|names| - 1])
  }

  lemma {:induction false} PathOfBoth(a: seq<string>, b: seq<string>)
    ensures Path(a + b) == Walk(Path(a), b)
  {
    if b == [] {
      assert a + b == a;
    } else {
      PathOfBoth(a, b[..|b| - 1]);
      assert (a + b)[..|a + b| - 1] == a + b[..|b| - 1];
    }
  }

  lemma JoinNotRoot(dir: string, name: string)
    requires IsName(name)
    ensures Join(dir, name) != "."
  {
    if dir != "." {
      assert |Join(dir, name)| > 1;
    }
  }

  /** A path is made of one list of names. */
  lemma {:induction false} PathInjective(a: seq<string>, b: seq<string>)
    requires AllNames(a) && AllNames(b) && Path(a) == Path(b)
    ensures a == b
  {
    if a != [] && b != [] {
      var x, y := a[..|a| - 1], b[..|b| - 1];
      JoinInjective(Path(x), a[|a| - 1], Path(y), b[|b| - 1]);
      PathInjective(x, y);
      assert a == x + [a[|a| - 1]] && b == y + [b[|b| - 1]];
    } else if a != [] {
      JoinNotRoot(Path(a[..|a| - 1]), a[|a| - 1]);
    } else if b != [] {
      JoinNotRoot(Path(b[..|b| - 1]), b[|b| - 1]);
    }
  }

  // ----- paths under a directory

  lemma RootUnder(base: string)
    requires Under(".", base)
    ensures base == "."
  {
    UnderPrefix(".", base);
    assert |base| == 1;
    assert "."[..1] == ".";
  }

  lemma UnderTrans(x: string, y: string, base: string)
    requires Under(x, y) && Under(y, base)
    ensures Under(x, base)
  {
    UnderPrefix(x, y);
    UnderPrefix(y, base);
    assert x[..|base|] == y[..|base|];
    PrefixUnder(x, base);
  }

  lemma JoinUnder(dir: string, name: string, base: string)
    requires base != "." && Under(dir, base)
    ensures dir != "." && Under(Join(dir, name), base)
  {
    if dir == "." {
      RootUnder(base);
    }
    var x := Join(dir, name);
    assert x[..|dir|] == dir && x[|dir|] == '/';
    PrefixUnder(x, dir);
    UnderTrans(x, dir, base);
  }

  lemma {:induction false} WalkUnder(base: string, names: seq<string>)
    requires base != "."
    ensures Under(Walk(base, names), base) && Walk(base, names) != "."
  {
    if names != [] {
      WalkUnder(base, names[..|names| - 1]);
      JoinUnder(Walk(base, names[..|names| - 1]), names[|names| - 1], base);
      if Walk(base, names) == "." {
        RootUnder(base);
      }
    }
  }

  /** Moving what is under a directory keeps the names below it. */
  lemma {:induction false} RebaseWalk(from: string, to: string, names: seq<string>)
    requires from != "." && to != "."
    ensures Under(Walk(from, names), from) && Rebase(Walk(from, names), from, to) == Walk(to, names)
  {
    WalkUnder(from, names);
    if names == [] {
      assert from[|from|..] == "" && to + "" == to;
    } else {
      var front, last := names[..|names| - 1], names[|names| - 1];
      RebaseWalk(from, to, front);
      WalkUnder(from, front);
      WalkUnder(to, front);
      RebaseJoin(Walk(from, front), last, from, to);
    }
  }

  lemma RebaseJoin(dir: string, name: string, from: string, to: string)
    requires Under(dir, from) && dir != "." && Under(Join(dir, name), from) && Rebase(dir, from, to) != "."
    ensures Rebase(Join(dir, name), from, to) == Join(Rebase(dir, from, to), name)
  {
    UnderPrefix(dir, from);
    var x := Join(dir, name);
    assert x == dir + ("/" + name);
    assert x[|from|..] == dir[|from|..] + ("/" + name);
    assert to + x[|from|..] == (to + dir[|from|..]) + ("/" + name);
  }

  // ----- the host's tree after a rename

  /** Neither path lies under the other, and neither is the root. */
  predicate Renames(from: string, to: string) {
    Apart(from, to) && from != "." && to != "."
  }

  predicate Elsewhere(x: string, from: string, to: string) {
    !Under(x, from) && !Under(x, to)
  }

  lemma ElsewhereKept(host: Host, from: string, to: string, x: string)
    requires Elsewhere(x, from, to)
    ensures x in HostRenamed(host, from, to) <==> x in host
    ensures x in host ==> HostRenamed(host, from, to)[x] == host[x]
  {
    MovedBack(host, from, to);
  }

  lemma UnderMoved(host: Host, from: string, to: string, x: string)
    requires Apart(from, to) && Under(x, from)
    ensures Under(Rebase(x, from, to), to)
    ensures Rebase(x, from, to) in HostRenamed(host, from, to) <==> x in host
    ensures x in host ==> HostRenamed(host, from, to)[Rebase(x, from, to)] == host[x]
  {
    RebaseUnder(x, from, to);
    MovedBack(host, from, to);
    var y := Rebase(x, from, to);
    if y in HostRenamed(host, from, to) {
      var z :| z in host && Under(z, from) && Rebase(z, from, to) == y;
      RebaseUnder(z, from, to);
    }
  }

  /** A path's directory is elsewhere when the path is. */
  lemma DirElsewhere(dir: string, name: string, from: string, to: string)
    requires from != "." && to != "." && Elsewhere(Join(dir, name), from, to)
    ensures Elsewhere(dir, from, to)
  {
    if Under(dir, from) {
      JoinUnder(dir, name, from);
    }
    if Under(dir, to) {
      JoinUnder(dir, name, to);
    }
  }

  /** What the listings lead to elsewhere they lead to after the rename, and the other way round. */
  lemma {:induction false} LeadsElsewhere(host: Host, from: string, to: string, names: seq<string>)
    requires from != "." && to != "." && Elsewhere(Path(names), from, to)
    ensures Leads(host, names) <==> Leads(HostRenamed(host, from, to), names)
  {
    ElsewhereKept(host, from, to, Path(names));
    if names != [] {
      var front := names[..|names| - 1];
      DirElsewhere(Path(front), names[|names| - 1], from, to);
      LeadsElsewhere(host, from, to, front);
      ElsewhereKept(host, from, to, Path(front));
    }
  }

  // ----- under the source

  /** The directories from dir down to the last name can be listed. */
  predicate Chain(host: Host, dir: string, names: seq<string>) {
    names != [] ==> Chain(host, dir, names[..|names| - 1]) && Listable(host, Walk(dir, names[..|names| - 1]))
  }

  /** The directory that the names lead into can be listed. */
  predicate DirListed(host: Host, names: seq<string>)
    requires names != []
  {
    Leads(host, names[..|names| - 1]) && Listable(host, Path(names[..|names| - 1]))
  }

  lemma LastName(toNames: seq<string>, from: string, to: string)
    requires AllNames(toNames) && toNames != [] && to == Path(toNames) && Renames(from, to)
    ensures Elsewhere(Path(toNames[..|toNames| - 1]), from, to)
  {
    var dir, name := Path(toNames[..|toNames| - 1]), toNames[|toNames| - 1];
    if Under(dir, from) {
      JoinUnder(dir, name, from);
    }
    if Under(dir, to) {
      UnderPrefix(dir, to);
    }
  }

  lemma LeadsToTarget(host: Host, from: string, to: string, toNames: seq<string>)
    requires AllNames(toNames) && toNames != [] && to == Path(toNames) && Renames(from, to)
    ensures Leads(HostRenamed(host, from, to), toNames) <==> from in host && DirListed(host, toNames)
  {
    var front := toNames[..|toNames| - 1];
    LastName(toNames, from, to);
    LeadsElsewhere(host, from, to, front);
    ElsewhereKept(host, from, to, Path(front));
    UnderMoved(host, from, to, from);
    assert Rebase(from, from, to) == to;
  }

  /**
   After a rename the listings lead to a file under the target exactly when they lead into the target's directory and
   the directories above the file, from the source down, can be listed.
   */
  lemma {:induction false} LeadsUnderTarget(host: Host, from: string, to: string, toNames: seq<string>,
      suf: seq<string>)
    requires AllNames(toNames) && AllNames(suf) && toNames != [] && to == Path(toNames) && Renames(from, to)
    ensures Leads(HostRenamed(host, from, to), toNames + suf) <==>
              Walk(from, suf) in host && DirListed(host, toNames) && Chain(host, from, suf)
    decreases |suf|
  {
    if suf == [] {
      assert toNames + suf == toNames;
      LeadsToTarget(host, from, to, toNames);
    } else {
      var front := suf[..|suf| - 1];
      LeadsUnderTarget(host, from, to, toNames, front);
      assert (toNames + suf)[..|toNames + suf| - 1] == toNames + front;
      SameBelow(host, from, to, toNames, suf);
      SameBelow(host, from, to, toNames, front);
    }
  }

  /** The file below the source is the file below the target. */
  lemma SameBelow(host: Host, from: string, to: string, toNames: seq<string>, suf: seq<string>)
    requires to == Path(toNames) && Renames(from, to)
    ensures var x, y, after := Walk(from, suf), Path(toNames + suf), HostRenamed(host, from, to);
      && Under(x, from) && y == Rebase(x, from, to)
      && (y in after <==> x in host) && (x in host ==> after[y] == host[x])
  {
    PathOfBoth(toNames, suf);
    RebaseWalk(from, to, suf);
    UnderMoved(host, from, to, Walk(from, suf));
  }

  /** A file the listings led to is below directories that can be listed. */
  lemma {:induction false} LeadsChain(host: Host, pre: seq<string>, suf: seq<string>)
    requires Leads(host, pre + suf)
    ensures Chain(host, Path(pre), suf)
  {
    if suf != [] {
      var front := suf[..|suf| - 1];
      assert (pre + suf)[..|pre + suf| - 1] == pre + front;
      PathOfBoth(pre, front);
      LeadsChain(host, pre, front);
    }
  }

  // ----- what handles resolve to

  /** The file at x, and no other, has the key. */
  predicate HeldBy(host: Host, k: Key, x: string) {
    x in host && host[x].key == k && forall y | y in host && host[y].key == k :: y == x
  }

  lemma {:induction false} LeadsByNames(host: Host, names: seq<string>)
    requires Leads(host, names)
    ensures AllNames(names)
  {
    if names != [] {
      LeadsByNames(host, names[..|names| - 1]);
    }
  }

  lemma FindableIs(host: Host, k: Key, names: seq<string>)
    requires AllNames(names) && HeldBy(host, k, Path(names))
    ensures Findable(host, k) <==> Leads(host, names)
  {
    if Findable(host, k) {
      var found :| Leads(host, found) && host[Path(found)].key == k;
      LeadsByNames(host, found);
      PathInjective(found, names);
    }
  }

  lemma HeldAfter(host: Host, from: string, to: string, k: Key, x: string)
    requires Apart(from, to) && HeldBy(host, k, x) && !Under(x, to)
    ensures HeldBy(HostRenamed(host, from, to), k, if Under(x, from) then Rebase(x, from, to) else x)
  {
    var after := HostRenamed(host, from, to);
    MovedBack(host, from, to);
    if Under(x, from) {
      UnderMoved(host, from, to, x);
    } else {
      ElsewhereKept(host, from, to, x);
    }
    forall y | y in after && after[y].key == k ensures y == if Under(x, from) then Rebase(x, from, to) else x {
      if !(y in host && Elsewhere(y, from, to)) {
        var z :| z in host && Under(z, from) && Rebase(z, from, to) == y;
        UnderMoved(host, from, to, z);
      }
    }
  }

  /** The cache is right about a file after a rename exactly when it was before. */
  lemma AccurateAfter(cache: map<Key, string>, host: Host, from: string, to: string, k: Key, x: string)
    requires Apart(from, to) && HeldBy(host, k, x) && !Under(x, to)
    ensures Accurate(Renamed(cache, from, to), HostRenamed(host, from, to), k) <==> Accurate(cache, host, k)
  {
    HeldAfter(host, from, to, k, x);
    if k in cache {
      RenameMoves(cache, from, to, k);
      if Under(cache[k], from) {
        RebaseUnder(cache[k], from, to);
        NotUnderBoth(cache[k], from, to);
      }
      if Under(x, from) {
        RebaseUnder(x, from, to);
      }
    }
  }

  /**
   A handle of a file under the source resolves after a rename, to the corresponding path under the target, if and only
   if the cache had the file's place, or the listings lead into the target's directory and down from the source to the
   file. A file they led to before is below directories that can be listed.
   */
  method FindMoved(i: Inodes, host: Host, from: string, to: string, k: Key, ghost toNames: seq<string>,
      ghost suf: seq<string>)
    returns (found: Option<string>)
    requires AllNames(toNames) && AllNames(suf) && toNames != [] && to == Path(toNames) && Renames(from, to)
    requires HeldBy(host, k, Walk(from, suf))
    modifies i
    ensures Under(Walk(from, suf), from)
    ensures found == if Accurate(old(i.cache), host, k) || (DirListed(host, toNames) && Chain(host, from, suf))
                     then Some(Rebase(Walk(from, suf), from, to)) else None
  {
    ghost var x, after := Walk(from, suf), HostRenamed(host, from, to);
    SameBelow(host, from, to, toNames, suf);
    NotUnderBoth(x, from, to);
    HeldAfter(host, from, to, k, x);
    AccurateAfter(i.cache, host, from, to, k, x);
    JoinedNames(toNames, suf);
    FindableIs(after, k, toNames + suf);
    LeadsUnderTarget(host, from, to, toNames, suf);
    i.Rename(from, to);
    found := i.NodeByHandle(HostRenamed(host, from, to), k);
  }

  lemma JoinedNames(a: seq<string>, b: seq<string>)
    requires AllNames(a) && AllNames(b)
    ensures AllNames(a + b)
  {
  }

  /** A handle of a file elsewhere resolves after a rename as it did before. */
  method FindElsewhere(i: Inodes, host: Host, from: string, to: string, k: Key, ghost names: seq<string>)
    returns (found: Option<string>)
    requires AllNames(names) && Renames(from, to) && Elsewhere(Path(names), from, to) && HeldBy(host, k, Path(names))
    modifies i
    ensures found == if Accurate(old(i.cache), host, k) || Findable(host, k) then Some(Path(names)) else None
  {
    ghost var x, after := Path(names), HostRenamed(host, from, to);
    HeldAfter(host, from, to, k, x);
    AccurateAfter(i.cache, host, from, to, k, x);
    FindableIs(host, k, names);
    FindableIs(after, k, names);
    LeadsElsewhere(host, from, to, names);
    i.Rename(from, to);
    found := i.NodeByHandle(HostRenamed(host, from, to), k);
  }

  /** A handle of a file that was only under the target is stale. */
  method FindReplaced(i: Inodes, host: Host, from: string, to: string, k: Key) returns (found: Option<string>)
    requires Renames(from, to) && forall x | x in host && host[x].key == k :: Under(x, to)
    modifies i
    ensures found == None
  {
    RenameMakesStale(i.cache, host, from, to, k);
    i.Rename(from, to);
    found := i.NodeByHandle(HostRenamed(host, from, to), k);
  }

  // ----- keys of several paths, as hard links give them

  /**
   The cache is right about a key after a rename exactly when it was before, at a path that is not under the target.
   */
  lemma PlacedAfter(cache: map<Key, string>, host: Host, from: string, to: string, k: Key)
    requires Apart(from, to)
    ensures Accurate(Renamed(cache, from, to), HostRenamed(host, from, to), k) <==>
              Accurate(cache, host, k) && !Under(cache[k], to)
  {
    if k in cache {
      RenameMoves(cache, from, to, k);
      if Under(cache[k], from) {
        UnderMoved(host, from, to, cache[k]);
        NotUnderBoth(cache[k], from, to);
      } else if !Under(cache[k], to) {
        ElsewhereKept(host, from, to, cache[k]);
      }
    }
  }

  /** An entry of a directory is under what the directory is under, or is that itself. */
  lemma DirUnder(dir: string, name: string, base: string)
    requires IsName(name) && Under(Join(dir, name), base) && Join(dir, name) != base
    ensures Under(dir, base)
  {
    var x := Join(dir, name);
    UnderPrefix(x, base);
    LastSlash(dir, name);
    assert x[|base|] == '/';
    assert dir != "." && |base| <= |dir|;
    assert x[..|dir|] == dir && dir[..|base|] == x[..|base|];
    assert |base| < |dir| ==> dir[|base|] == x[|base|];
    PrefixUnder(dir, base);
  }

  /** Under a path made of names, further names follow. */
  lemma {:induction false} NamesUnder(a: seq<string>, b: seq<string>) returns (suf: seq<string>)
    requires AllNames(a) && AllNames(b) && a != [] && Under(Path(b), Path(a))
    ensures AllNames(suf) && b == a + suf
    decreases |b|
  {
    if Path(b) == Path(a) {
      PathInjective(a, b);
      suf := [];
    } else {
      if b == [] {
        RootUnder(Path(a));
        JoinNotRoot(Path(a[..|a| - 1]), a[|a| - 1]);
      }
      var front, last := b[..|b| - 1], b[|b| - 1];
      DirUnder(Path(front), last, Path(a));
      var more := NamesUnder(a, front);
      suf := more + [last];
      assert b == front + [last];
    }
  }

  /** A file with the key to which the listings lead, away from source and target. */
  ghost predicate FoundElsewhere(host: Host, from: string, to: string, k: Key) {
    exists names :: Leads(host, names) && Elsewhere(Path(names), from, to) && host[Path(names)].key == k
  }

  /** A file with the key below the source, all directories from the source down to it listable. */
  ghost predicate FoundBelow(host: Host, from: string, k: Key) {
    exists suf :: AllNames(suf) && Chain(host, from, suf) && Walk(from, suf) in host && host[Walk(from, suf)].key == k
  }

  lemma FoundMeansBefore(host: Host, from: string, to: string, toNames: seq<string>, k: Key, names: seq<string>)
    requires AllNames(toNames) && toNames != [] && to == Path(toNames) && Renames(from, to)
    requires Leads(HostRenamed(host, from, to), names) && HostRenamed(host, from, to)[Path(names)].key == k
    ensures FoundElsewhere(host, from, to, k) || (DirListed(host, toNames) && FoundBelow(host, from, k))
  {
    var y := Path(names);
    MovedBack(host, from, to);
    LeadsByNames(HostRenamed(host, from, to), names);
    if Elsewhere(y, from, to) {
      LeadsElsewhere(host, from, to, names);
      ElsewhereKept(host, from, to, y);
    } else {
      var suf := NamesUnder(toNames, names);
      LeadsUnderTarget(host, from, to, toNames, suf);
      SameBelow(host, from, to, toNames, suf);
    }
  }

  /** What a search finds after a rename: a file elsewhere that it found before, or one below the source. */
  lemma FindableAfter(host: Host, from: string, to: string, toNames: seq<string>, k: Key)
    requires AllNames(toNames) && toNames != [] && to == Path(toNames) && Renames(from, to)
    ensures Findable(HostRenamed(host, from, to), k) <==>
              FoundElsewhere(host, from, to, k) || (DirListed(host, toNames) && FoundBelow(host, from, k))
  {
    var after := HostRenamed(host, from, to);
    if Findable(after, k) {
      var names :| Leads(after, names) && after[Path(names)].key == k;
      FoundMeansBefore(host, from, to, toNames, k, names);
    }
    if FoundElsewhere(host, from, to, k) {
      var names :| Leads(host, names) && Elsewhere(Path(names), from, to) && host[Path(names)].key == k;
      LeadsElsewhere(host, from, to, names);
      ElsewhereKept(host, from, to, Path(names));
    }
    if DirListed(host, toNames) && FoundBelow(host, from, k) {
      var suf :| AllNames(suf) && Chain(host, from, suf) && Walk(from, suf) in host && host[Walk(from, suf)].key == k;
      LeadsUnderTarget(host, from, to, toNames, suf);
      SameBelow(host, from, to, toNames, suf);
      assert Leads(after, toNames + suf) && after[Path(toNames + suf)].key == k;
    }
  }

  /** y is where a rename leaves some path of the key. */
  ghost predicate PlaceAfter(host: Host, from: string, to: string, k: Key, y: string) {
    exists x :: x in host && host[x].key == k && !Under(x, to) && y == if Under(x, from) then Rebase(x, from, to) else x
  }

  lemma HoldersAfter(host: Host, from: string, to: string, k: Key, y: string)
    requires Apart(from, to) && y in HostRenamed(host, from, to) && HostRenamed(host, from, to)[y].key == k
    ensures PlaceAfter(host, from, to, k, y)
  {
    MovedBack(host, from, to);
    if y in host && Elsewhere(y, from, to) {
      ElsewhereKept(host, from, to, y);
    } else {
      var x :| x in host && Under(x, from) && Rebase(x, from, to) == y;
      UnderMoved(host, from, to, x);
      NotUnderBoth(x, from, to);
    }
  }

  /**
   A handle of any file, whatever paths its key has: after a rename it resolves to one of them, moved if it was under
   the source, never to one under the target. It resolves if and only if the cache placed it outside the target, or a
   search finds one of its paths elsewhere, or the listings lead into the target's directory and from the source down to
   one.
   */
  method FindAfter(i: Inodes, host: Host, from: string, to: string, k: Key, ghost toNames: seq<string>)
    returns (found: Option<string>)
    requires AllNames(toNames) && toNames != [] && to == Path(toNames) && Renames(from, to)
    modifies i
    ensures found.Some? ==> PlaceAfter(host, from, to, k, found.value)
    ensures found.Some? <==>
              || (Accurate(old(i.cache), host, k) && !Under(old(i.cache)[k], to))
              || FoundElsewhere(host, from, to, k)
              || (DirListed(host, toNames) && FoundBelow(host, from, k))
  {
    PlacedAfter(i.cache, host, from, to, k);
    FindableAfter(host, from, to, toNames, k);
    i.Rename(from, to);
    found := i.NodeByHandle(HostRenamed(host, from, to), k);
    if found.Some? {
      HoldersAfter(host, from, to, k, found.value);
    }
  }

  /** A file in a directory that cannot be listed: no search finds it, and only the cache can place its handle. */
  lemma HiddenFile(root: File, dir: File, file: File)
    requires root.key != file.key && dir.key != file.key && !dir.readable
    ensures var host: Host := map["." := root, "d" := dir, "d/f" := file];
      Accurate(map[file.key := "d/f"], host, file.key) && !Findable(host, file.key)
  {
    var host: Host, names := map["." := root, "d" := dir, "d/f" := file], ["d", "f"];
    assert names[..1] == ["d"] && ["d"][..0] == [];
    assert Path(["d"]) == "d" && Path(names) == "d/f";
    FindableIs(host, file.key, names);
  }
}
