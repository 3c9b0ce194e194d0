/** A client that follows the last cookie it was given, page after page, while the directory changes. */
module ReaddirPaging {
  import opened Bits
  import opened Readdir

  /** One call: what the client allows, and the directory as it is then. */
  datatype Call = Call(ask: Ask, ents: seq<Entry>)

  /** What the client has so far. */
  datatype Listing = Listing(cookie: nat, items: seq<Item>, eof: bool)

  /** The client's listing after a page. */
  function With(l: Listing, items: seq<Item>, eof: bool): Listing {
    Listing(if items == [] then l.cookie else items[|items| - 1].cookie, l.items + items, eof)
  }

  function Take(l: Listing, page: Page): Listing {
    if l.eof || page.TooSmall? then l else With(l, page.items, page.eof)
  }

  /** A page too small for its first entry leaves the client to ask again. */
  function Next(l: Listing, call: Call): Listing {
    Take(l, PageAfter(call.ask, call.ents, l.cookie))
  }

  function Follow(calls: seq<Call>): Listing {
    if calls == [] then Listing(0, [], false) else Next(Follow(calls[..|calls| - 1]), calls[|calls| - 1])
  }

  // ----- entries with cookies of their own

  /** A listing in cookie order, each cookie a positive value of the entry's name, and no name twice. */
  ghost predicate Hashed(ents: seq<Entry>, hash: seq<byte> -> nat) {
    && (forall i | 0 <= i < |ents| :: ents[i].cookie == hash(ents[i].name) > 0)
    && (forall i, j | 0 <= i < j < |ents| :: ents[i].cookie <= ents[j].cookie)
    && (forall i, j | 0 <= i < j < |ents| :: ents[i].name != ents[j].name)
  }

  ghost predicate AllHashed(calls: seq<Call>, hash: seq<byte> -> nat) {
    forall i | 0 <= i < |calls| :: Hashed(calls[i].ents, hash)
  }

  /** Names so far differ, and none has a cookie beyond the last. */
  ghost predicate Sound(l: Listing, hash: seq<byte> -> nat) {
    && (forall i | 0 <= i < |l.items| :: hash(l.items[i].entry.name) <= l.cookie)
    && (forall i, j | 0 <= i < j < |l.items| :: l.items[i].entry.name != l.items[j].entry.name)
  }

  /** A page is a run of the listing's entries from start on, and these are the ones past the cookie. */
  ghost predicate IsRun(page: Page, ents: seq<Entry>, cookie: nat, start: nat) {
    page.Page? ==>
      && start + |page.items| <= |ents|
      && (forall k | 0 <= k < start :: ents[k].cookie <= cookie)
      && (forall k | start <= k < |ents| :: cookie < ents[k].cookie)
      && (forall k | start <= k < start + |page.items| :: page.items[k - start] == Item(ents[k], ents[k].cookie))
      && (page.eof ==> start + |page.items| == |ents|)
  }

  lemma ItemsAre(ents: seq<Entry>, start: nat, end: nat)
    requires start <= end <= |ents| && forall i | 0 <= i < |ents| :: ents[i].cookie > 0
    ensures forall k | start <= k < end :: Items(ents, start, end)[k - start] == Item(ents[k], ents[k].cookie)
  {
    forall k | start <= k < end ensures Items(ents, start, end)[k - start] == Item(ents[k], ents[k].cookie) {
      assert Items(ents, start, end)[k - start] == Item(ents[k], CookieOf(ents, k));
    }
  }

  /** From the first entry past a cookie on, all are. */
  lemma StartSplits(ents: seq<Entry>, cookie: nat, hash: seq<byte> -> nat)
    requires Hashed(ents, hash)
    ensures forall k | 0 <= k < StartOf(ents, cookie) :: ents[k].cookie <= cookie
    ensures forall k | StartOf(ents, cookie) <= k < |ents| :: cookie < ents[k].cookie
  {
    var start := StartOf(ents, cookie);
    forall k | start <= k < |ents| ensures cookie < ents[k].cookie {
      assert ents[start].cookie <= ents[k].cookie;
    }
  }

  lemma PageIsRun(ask: Ask, ents: seq<Entry>, cookie: nat, hash: seq<byte> -> nat)
    requires Hashed(ents, hash)
    ensures IsRun(PageAfter(ask, ents, cookie), ents, cookie, StartOf(ents, cookie))
  {
    var start := StartOf(ents, cookie);
    StartSplits(ents, cookie, hash);
    ItemsAre(ents, start, EndOf(ask, ents, start, start));
  }

  lemma TakeSound(l: Listing, page: Page, ents: seq<Entry>, start: nat, hash: seq<byte> -> nat)
    requires Sound(l, hash) && Hashed(ents, hash) && IsRun(page, ents, l.cookie, start)
    ensures Sound(Take(l, page), hash)
  {
    if !l.eof && page.Page? {
      RunSound(l, ents, start, page.items, page.eof, hash);
    }
  }

  lemma RunSound(l: Listing, ents: seq<Entry>, start: nat, items: seq<Item>, eof: bool, hash: seq<byte> -> nat)
    requires Sound(l, hash) && Hashed(ents, hash) && start + |items| <= |ents|
    requires forall k | start <= k < start + |items| ::
               items[k - start] == Item(ents[k], ents[k].cookie) && l.cookie < ents[k].cookie
    ensures Sound(With(l, items, eof), hash)
  {
    var n := With(l, items, eof);
    var had := |l.items|;
    if items != [] {
      var last := start + |items| - 1;
      assert n.cookie == ents[last].cookie > l.cookie;
      forall i | 0 <= i < |n.items| ensures hash(n.items[i].entry.name) <= n.cookie {
        if i >= had {
          assert n.items[i] == Item(ents[start + i - had], ents[start + i - had].cookie);
        }
      }
      forall i, j | 0 <= i < j < |n.items| ensures n.items[i].entry.name != n.items[j].entry.name {
        if j >= had {
          assert n.items[j].entry == ents[start + j - had];
          if i >= had {
            assert n.items[i].entry == ents[start + i - had];
          }
        }
      }
    }
  }

  /** However pages are cut and entries come and go between them, no name is listed twice. */
  lemma {:induction false} NoNameTwice(calls: seq<Call>, hash: seq<byte> -> nat)
    requires AllHashed(calls, hash)
    ensures Sound(Follow(calls), hash)
  {
    if calls != [] {
      var last := |calls| - 1;
      NoNameTwice(calls[..last], hash);
      var l, call := Follow(calls[..last]), calls[last];
      PageIsRun(call.ask, call.ents, l.cookie, hash);
      TakeSound(l, PageAfter(call.ask, call.ents, l.cookie), call.ents, StartOf(call.ents, l.cookie), hash);
    }
  }

  /** Entry k is the first with its cookie. */
  predicate FirstOfCookie(ents: seq<Entry>, k: nat) {
    k < |ents| && forall i | 0 <= i < k :: ents[i].cookie != ents[k].cookie
  }

  /** The name is in the listing, and no entry before it has its cookie. */
  ghost predicate PresentFirst(ents: seq<Entry>, name: seq<byte>) {
    exists k: nat :: FirstOfCookie(ents, k) && ents[k].name == name
  }

  ghost predicate Listed(l: Listing, name: seq<byte>) {
    exists i :: 0 <= i < |l.items| && l.items[i].entry.name == name
  }

  lemma RunLists(l: Listing, ents: seq<Entry>, start: nat, items: seq<Item>, eof: bool, name: seq<byte>,
      hash: seq<byte> -> nat)
    requires Hashed(ents, hash) && PresentFirst(ents, name) && start + |items| <= |ents| &&
             (eof ==> start + |items| == |ents|)
    requires forall k | 0 <= k < start :: ents[k].cookie <= l.cookie
    requires forall k | start <= k < start + |items| :: items[k - start] == Item(ents[k], ents[k].cookie)
    requires hash(name) <= l.cookie ==> Listed(l, name)
    ensures (hash(name) <= With(l, items, eof).cookie || eof) ==> Listed(With(l, items, eof), name)
  {
    var n, end := With(l, items, eof), start + |items|;
    var k: nat :| FirstOfCookie(ents, k) && ents[k].name == name;
    if Listed(l, name) {
      var i :| 0 <= i < |l.items| && l.items[i].entry.name == name;
      assert n.items[i] == l.items[i];
    } else if start <= k < end {
      assert n.items[|l.items| + (k - start)] == items[k - start];
    } else if start < end {
      assert n.cookie == items[end - 1 - start].cookie == ents[end - 1].cookie <= ents[k].cookie;
    }
  }

  lemma TakeLists(l: Listing, page: Page, ents: seq<Entry>, start: nat, name: seq<byte>, hash: seq<byte> -> nat)
    requires Hashed(ents, hash) && PresentFirst(ents, name) && IsRun(page, ents, l.cookie, start)
    requires (hash(name) <= l.cookie || l.eof) ==> Listed(l, name)
    ensures (hash(name) <= Take(l, page).cookie || Take(l, page).eof) ==> Listed(Take(l, page), name)
  {
    if !l.eof && page.Page? {
      RunLists(l, ents, start, page.items, page.eof, name, hash);
    }
  }

  /**
   When the end is reached, every entry that was there throughout, always first of its cookie, is listed: exactly once.
   */
  lemma {:induction false} NothingSkipped(calls: seq<Call>, name: seq<byte>, hash: seq<byte> -> nat)
    requires AllHashed(calls, hash) && hash(name) > 0
    requires forall i | 0 <= i < |calls| :: PresentFirst(calls[i].ents, name)
    ensures (hash(name) <= Follow(calls).cookie || Follow(calls).eof) ==> Listed(Follow(calls), name)
  {
    if calls != [] {
      var last := |calls| - 1;
      NothingSkipped(calls[..last], name, hash);
      var l, call := Follow(calls[..last]), calls[last];
      PageIsRun(call.ask, call.ents, l.cookie, hash);
      TakeLists(l, PageAfter(call.ask, call.ents, l.cookie), call.ents, StartOf(call.ents, l.cookie), name, hash);
    }
  }

  lemma {:induction false} CostRises(procedure: Procedure, ents: seq<Entry>, start: nat, i: nat, j: nat)
    requires start <= i <= j <= |ents|
    ensures CostSum(procedure, ents, start, i) <= CostSum(procedure, ents, start, j)
    decreases j
  {
    if i < j {
      CostRises(procedure, ents, start, i, j - 1);
    }
  }

  /** The count that takes entries start to end and no more. */
  function Exactly(ents: seq<Entry>, start: nat, end: nat): Ask
    requires start <= end <= |ents|
  {
    Ask(Readdir3, 0, FIXED + CostSum(Readdir3, ents, start, end))
  }

  lemma {:induction false} ExactlyEnds(ents: seq<Entry>, start: nat, i: nat, end: nat)
    requires start <= i <= end <= |ents|
    ensures EndOf(Exactly(ents, start, end), ents, start, i) == end
    decreases end - i
  {
    if i < end {
      CostRises(Readdir3, ents, start, i + 1, end);
      ExactlyEnds(ents, start, i + 1, end);
    }
  }

  /** Two pages of an unchanged directory: the entries before k, then all past their last cookie. */
  function AroundCookie(ents: seq<Entry>, k: nat): seq<Call>
    requires k < |ents|
  {
    [Call(Exactly(ents, 0, k), ents), Call(Exactly(ents, StartOf(ents, ents[k].cookie), |ents|), ents)]
  }

  lemma FollowTwo(c: Call, d: Call)
    ensures Follow([c, d]) == Next(Next(Listing(0, [], false), c), d)
  {
    assert [c][..0] == [] && [c][0] == c;
    assert Follow([c]) == Next(Follow([]), c);
    assert [c, d][..1] == [c] && [c, d][1] == d;
  }

  lemma FirstPage(ents: seq<Entry>, k: nat, hash: seq<byte> -> nat)
    requires Hashed(ents, hash) && 0 < k < |ents|
    ensures Next(Listing(0, [], false), Call(Exactly(ents, 0, k), ents))
            == Listing(ents[k - 1].cookie, Items(ents, 0, k), false)
  {
    assert StartOf(ents, 0) == 0 by { assert ents[0].cookie > 0; }
    ExactlyEnds(ents, 0, 0, k);
    assert PageAfter(Exactly(ents, 0, k), ents, 0) == Page(Items(ents, 0, k), false);
    assert [] + Items(ents, 0, k) == Items(ents, 0, k);
    assert Items(ents, 0, k)[k - 1] == Item(ents[k - 1], ents[k - 1].cookie);
  }

  lemma SecondPage(ents: seq<Entry>, k: nat, l: Listing, hash: seq<byte> -> nat)
    requires Hashed(ents, hash) && k < |ents| && l.cookie == ents[k].cookie && !l.eof
    ensures var start := StartOf(ents, ents[k].cookie);
      var n := Next(l, Call(Exactly(ents, start, |ents|), ents));
      k < start && n.eof && n.items == l.items + Items(ents, start, |ents|)
  {
    ExactlyEnds(ents, StartOf(ents, ents[k].cookie), StartOf(ents, ents[k].cookie), |ents|);
  }

  lemma LastBefore(ents: seq<Entry>, j: nat, k: nat, hash: seq<byte> -> nat)
    requires Hashed(ents, hash) && j < k < |ents| && ents[j].cookie == ents[k].cookie
    ensures ents[k - 1].cookie == ents[k].cookie
  {
    assert j < k - 1 ==> ents[j].cookie <= ents[k - 1].cookie;
  }

  /** With an earlier entry of its cookie, an entry can be hidden from a client of an unchanged directory. */
  lemma CollisionSkips(ents: seq<Entry>, j: nat, k: nat, hash: seq<byte> -> nat)
    requires Hashed(ents, hash) && j < k < |ents| && ents[j].cookie == ents[k].cookie
    ensures Follow(AroundCookie(ents, k)).eof && !Listed(Follow(AroundCookie(ents, k)), ents[k].name)
  {
    var start, l := StartOf(ents, ents[k].cookie), Listing(ents[k].cookie, Items(ents, 0, k), false);
    var c, d := Call(Exactly(ents, 0, k), ents), Call(Exactly(ents, start, |ents|), ents);
    LastBefore(ents, j, k, hash);
    FollowTwo(c, d);
    FirstPage(ents, k, hash);
    SecondPage(ents, k, l, hash);
    Hidden(Next(l, d), ents, k, start, hash);
  }

  lemma Hidden(l: Listing, ents: seq<Entry>, k: nat, start: nat, hash: seq<byte> -> nat)
    requires Hashed(ents, hash) && k < start <= |ents| && l.items == Items(ents, 0, k) + Items(ents, start, |ents|)
    ensures !Listed(l, ents[k].name)
  {
    forall i | 0 <= i < |l.items| ensures l.items[i].entry.name != ents[k].name {
      assert l.items[i].entry == ents[if i < k then i else start + i - k];
    }
  }

  /** Calls that find the directory unchanged. */
  predicate Unchanged(calls: seq<Call>, ents: seq<Entry>) {
    forall i | 0 <= i < |calls| :: calls[i].ents == ents
  }

  lemma FirstListed(calls: seq<Call>, ents: seq<Entry>, k: nat, hash: seq<byte> -> nat)
    requires Hashed(ents, hash) && FirstOfCookie(ents, k) && Unchanged(calls, ents) && Follow(calls).eof
    ensures Listed(Follow(calls), ents[k].name)
  {
    assert hash(ents[k].name) > 0 && PresentFirst(ents, ents[k].name);
    NothingSkipped(calls, ents[k].name, hash);
  }

  lemma LaterSkipped(ents: seq<Entry>, k: nat, hash: seq<byte> -> nat) returns (calls: seq<Call>)
    requires Hashed(ents, hash) && k < |ents| && !FirstOfCookie(ents, k)
    ensures Unchanged(calls, ents) && Follow(calls).eof && !Listed(Follow(calls), ents[k].name)
  {
    var j :| 0 <= j < k && ents[j].cookie == ents[k].cookie;
    CollisionSkips(ents, j, k, hash);
    calls := AroundCookie(ents, k);
  }

  /**
   Every client that reaches the end of an unchanged directory lists an entry if and only if it is the first of its
   cookie.
   */
  lemma ListedExactly(ents: seq<Entry>, k: nat, hash: seq<byte> -> nat)
    requires Hashed(ents, hash) && k < |ents|
    ensures FirstOfCookie(ents, k) <==>
              forall calls | Unchanged(calls, ents) && Follow(calls).eof :: Listed(Follow(calls), ents[k].name)
  {
    if FirstOfCookie(ents, k) {
      forall calls | Unchanged(calls, ents) && Follow(calls).eof ensures Listed(Follow(calls), ents[k].name) {
        FirstListed(calls, ents, k, hash);
      }
    } else {
      var calls := LaterSkipped(ents, k, hash);
    }
  }

  // ----- the end is reached

  /** The counts take any entry of the directory alone. */
  predicate TakesEach(ask: Ask, ents: seq<Entry>) {
    forall i | 0 <= i < |ents| :: Fits(ask, ents[i], true, ask.dircount, Left(ask))
  }

  /** Cookies in order, each positive; or none, so that entries are numbered by position. */
  predicate CookiesOK(ents: seq<Entry>) {
    || (forall i | 0 <= i < |ents| :: ents[i].cookie == 0)
    || ((forall i | 0 <= i < |ents| :: ents[i].cookie > 0)
        && (forall i, j | 0 <= i < j < |ents| :: ents[i].cookie <= ents[j].cookie))
  }

  /** The cookie of an entry leads past it. */
  lemma CookiePasses(ents: seq<Entry>, i: nat)
    requires CookiesOK(ents) && i < |ents|
    ensures StartOf(ents, CookieOf(ents, i)) > i
  {
    if ents[i].cookie > 0 {
      assert ents[0].cookie > 0;
      var r := StartOf(ents, ents[i].cookie);
      assert r < |ents| ==> ents[i].cookie < ents[r].cookie;
    }
  }

  /** A page of such a directory takes the client at least one entry further, or to the end. */
  lemma PageAdvances(ask: Ask, ents: seq<Entry>, l: Listing)
    requires CookiesOK(ents) && TakesEach(ask, ents) && !l.eof
    ensures var n := Next(l, Call(ask, ents)); n.eof || StartOf(ents, l.cookie) < StartOf(ents, n.cookie)
  {
    var start := StartOf(ents, l.cookie);
    if start < |ents| {
      assert FitsAt(ask, ents, start, start);
      var end := EndOf(ask, ents, start, start);
      assert end > start;
      var items := Items(ents, start, end);
      assert PageAfter(ask, ents, l.cookie) == Page(items, end == |ents|);
      assert items[|items| - 1] == Item(ents[end - 1], CookieOf(ents, end - 1));
      CookiePasses(ents, end - 1);
    }
  }

  lemma {:induction false} PagesAdvance(calls: seq<Call>, ents: seq<Entry>)
    requires CookiesOK(ents) && Unchanged(calls, ents) && forall i | 0 <= i < |calls| :: TakesEach(calls[i].ask, ents)
    ensures Follow(calls).eof || |calls| <= StartOf(ents, Follow(calls).cookie)
  {
    if calls != [] {
      var last := |calls| - 1;
      PagesAdvance(calls[..last], ents);
      if !Follow(calls[..last]).eof {
        PageAdvances(calls[last].ask, ents, Follow(calls[..last]));
        assert calls[last] == Call(calls[last].ask, ents);
      }
    }
  }

  /**
   A client of an unchanged directory whose counts take every entry is at the end within a page for each and one more.
   */
  lemma EndReached(calls: seq<Call>, ents: seq<Entry>)
    requires CookiesOK(ents) && Unchanged(calls, ents) && forall i | 0 <= i < |calls| :: TakesEach(calls[i].ask, ents)
    requires |calls| > |ents|
    ensures Follow(calls).eof
  {
    PagesAdvance(calls, ents);
  }

  // ----- entries numbered by position

  lemma ItemsJoin(ents: seq<Entry>, a: nat, b: nat, c: nat)
    requires a <= b <= c <= |ents|
    ensures Items(ents, a, b) + Items(ents, b, c) == Items(ents, a, c)
  {
  }

  /** The client has the entries before its cookie. */
  predicate HasBefore(l: Listing, ents: seq<Entry>) {
    l.cookie <= |ents| && l.items == Items(ents, 0, l.cookie) && (l.eof ==> l.cookie == |ents|)
  }

  lemma PositionStep(l: Listing, ask: Ask, ents: seq<Entry>)
    requires (forall i | 0 <= i < |ents| :: ents[i].cookie == 0) && HasBefore(l, ents)
    ensures HasBefore(Next(l, Call(ask, ents)), ents)
  {
    var end := EndOf(ask, ents, l.cookie, l.cookie);
    ItemsJoin(ents, 0, l.cookie, end);
    assert end > l.cookie ==> Items(ents, l.cookie, end)[end - l.cookie - 1].cookie == end;
  }

  /** Of a directory without cookies that does not change, the client has exactly the entries before its cookie. */
  lemma {:induction false} ByPosition(calls: seq<Call>, ents: seq<Entry>)
    requires (forall i | 0 <= i < |ents| :: ents[i].cookie == 0) && Unchanged(calls, ents)
    ensures HasBefore(Follow(calls), ents)
  {
    if calls != [] {
      var last := |calls| - 1;
      ByPosition(calls[..last], ents);
      PositionStep(Follow(calls[..last]), calls[last].ask, ents);
      assert calls[last] == Call(calls[last].ask, ents);
    } else {
      assert Items(ents, 0, 0) == [];
    }
  }
}
