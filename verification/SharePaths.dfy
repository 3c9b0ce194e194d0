/** Slash-separated share paths, and what a rename does to everything remembered by path. */
module SharePaths {

  /** p is base or inside it. */
  predicate Under(p: string, base: string) {
    p == base || base + "/" <= p
  }

  lemma UnderPrefix(p: string, base: string)
    requires Under(p, base)
    ensures |base| <= |p| && p[..|base|] == base && (|p| > |base| ==> p[|base|] == '/')
  {
    if p != base {
      assert (base + "/")[..|base|] == p[..|base|];
      assert (base + "/")[|base|] == p[|base|];
    }
  }

  lemma PrefixUnder(p: string, base: string)
    requires |base| <= |p| && p[..|base|] == base && (|p| > |base| ==> p[|base|] == '/')
    ensures Under(p, base)
  {
    if |p| > |base| {
      assert base + "/" == p[..|base| + 1];
    } else {
      assert p[..|base|] == p;
    }
  }

  /** Neither path lies inside the other: what a host demands of a rename. */
  predicate Apart(p: string, q: string) {
    !Under(p, q) && !Under(q, p)
  }

  /** Two paths above the same one are nested. */
  lemma SharedBelow(x: string, p: string, q: string)
    requires Under(x, p) && Under(x, q)
    ensures !Apart(p, q)
  {
    UnderPrefix(x, p);
    UnderPrefix(x, q);
    if |p| <= |q| {
      assert q[..|p|] == x[..|p|];
      PrefixUnder(q, p);
    } else {
      assert p[..|q|] == x[..|q|];
      PrefixUnder(p, q);
    }
  }

  /** No path lies under two that are apart. */
  lemma NotUnderBoth(x: string, p: string, q: string)
    requires Apart(p, q)
    ensures !(Under(x, p) && Under(x, q))
  {
    if Under(x, p) && Under(x, q) {
      SharedBelow(x, p, q);
    }
  }

  /** Where a path under from ends up. */
  function Rebase(x: string, from: string, to: string): (y: string)
    requires Under(x, from)
  {
    UnderPrefix(x, from);
    to + x[|from|..]
  }

  lemma RebaseUnder(x: string, from: string, to: string)
    requires Under(x, from)
    ensures Under(Rebase(x, from, to), to)
    ensures Rebase(Rebase(x, from, to), to, from) == x
  {
    UnderPrefix(x, from);
    var y := Rebase(x, from, to);
    assert y[..|to|] == to && y[|to|..] == x[|from|..];
    PrefixUnder(y, to);
  }

  /** Forgetting a path drops it and everything under it. */
  function Forgotten<K>(m: map<K, string>, p: string): map<K, string> {
    map k | k in m && !Under(m[k], p) :: m[k]
  }

  /** Moving a path moves everything under it along. */
  function Moved<K>(m: map<K, string>, from: string, to: string): map<K, string> {
    map k | k in m :: if Under(m[k], from) then Rebase(m[k], from, to) else m[k]
  }

  /** A rename forgets its target, then moves its source there. */
  function Renamed<K>(m: map<K, string>, from: string, to: string): map<K, string> {
    Moved(Forgotten(m, to), from, to)
  }

  /**
   After a rename every name at or under the source leads to the corresponding path under the target, every name
   formerly at or under the target is gone, and all others are as they were; renaming back undoes it for those kept.
   */
  lemma RenameMoves<K>(m: map<K, string>, from: string, to: string, k: K)
    requires Apart(from, to) && k in m
    ensures Under(m[k], from) ==> k in Renamed(m, from, to) && Renamed(m, from, to)[k] == Rebase(m[k], from, to)
    ensures Under(m[k], to) ==> k !in Renamed(m, from, to)
    ensures !Under(m[k], from) && !Under(m[k], to) ==> k in Renamed(m, from, to) && Renamed(m, from, to)[k] == m[k]
    ensures var back := Renamed(Renamed(m, from, to), to, from);
      !Under(m[k], to) ==> k in back && back[k] == m[k]
  {
    NotUnderBoth(m[k], from, to);
    if Under(m[k], from) {
      RebaseUnder(m[k], from, to);
      NotUnderBoth(Rebase(m[k], from, to), from, to);
    }
  }
}
