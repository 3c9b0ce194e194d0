/** READDIR and READDIRPLUS replies: where a page starts, what fits it, and what it costs on the wire. */
module Readdir {
  import opened Bits
  import opened Xdr

  const FH_SIZE := 32
  const ATTR_SIZE := 84
  const NFS3ERR_TOOSMALL := 10005
  const TOO_SMALL_SIZE := 92  // status, dir_attributes
  const FIXED := 108   // status, dir_attributes, cookieverf, the list terminator and eof

  /** A directory entry. A cookie of zero means that entries are numbered by position. */
  datatype Entry = Entry(name: seq<byte>, fileid: nat, cookie: nat, attr: seq<byte>, handle: seq<byte>)

  predicate EntryOK(e: Entry) { |e.attr| == ATTR_SIZE && |e.handle| == FH_SIZE }

  datatype Procedure = Readdir2 | Readdir3 | Readdirplus3

  /** What a client asks for: the sizes it allows. Only READDIRPLUS has two. */
  datatype Ask = Ask(procedure: Procedure, dircount: nat, count: nat)

  /** An entry as the reply lists it, with the cookie to go on from. */
  datatype Item = Item(entry: Entry, cookie: nat)

  datatype Page = TooSmall | Page(items: seq<Item>, eof: bool)

  // ----- where a page starts

  predicate ByCookie(ents: seq<Entry>) { |ents| > 0 && ents[0].cookie != 0 }

  function FirstAfter(ents: seq<Entry>, cookie: nat, i: nat): (r: nat)
    requires i <= |ents|
    ensures i <= r <= |ents|
    ensures forall j | i <= j < r :: ents[j].cookie <= cookie
    ensures r < |ents| ==> cookie < ents[r].cookie
    decreases |ents| - i
  {
    if i == |ents| || ents[i].cookie > cookie then i else FirstAfter(ents, cookie, i + 1)
  }

  function StartOf(ents: seq<Entry>, cookie: nat): (r: nat)
    ensures r <= |ents|
  {
    if ByCookie(ents) then FirstAfter(ents, cookie, 0) else if cookie < |ents| then cookie else |ents|
  }

  function CookieOf(ents: seq<Entry>, i: nat): nat
    requires i < |ents|
  {
    if ents[i].cookie != 0 then ents[i].cookie else i + 1
  }

  // ----- what fits

  /** Bytes an entry takes of the reply. */
  function Cost(procedure: Procedure, e: Entry): nat {
    match procedure
    case Readdir2 => 4 + 4 + 4 + Padded(|e.name|) + 4
    case Readdir3 => 4 + 8 + (4 + Padded(|e.name|)) + 8
    case Readdirplus3 => 4 + (8 + (4 + Padded(|e.name|)) + 8) + 4 + ATTR_SIZE + 4 + 4 + FH_SIZE
  }

  /** Bytes of an entry's fileid, name and cookie alone. */
  function DirCost(e: Entry): nat { 8 + (4 + Padded(|e.name|)) + 8 }

  /** Whether the next entry goes in. Version 2 always gives one. */
  predicate Fits(ask: Ask, e: Entry, first: bool, dirLeft: int, left: int) {
    match ask.procedure
    case Readdir2 => first || Cost(Readdir2, e) <= left
    case Readdir3 => Cost(Readdir3, e) <= left
    case Readdirplus3 => DirCost(e) <= dirLeft && Cost(Readdirplus3, e) <= left
  }

  /** What entries start to i take of the reply, and of the count for names alone. */
  function CostSum(procedure: Procedure, ents: seq<Entry>, start: nat, i: nat): nat
    requires start <= i <= |ents|
  {
    if i == start then 0 else CostSum(procedure, ents, start, i - 1) + Cost(procedure, ents[i - 1])
  }

  function DirSum(ents: seq<Entry>, start: nat, i: nat): nat
    requires start <= i <= |ents|
  {
    if i == start then 0 else DirSum(ents, start, i - 1) + DirCost(ents[i - 1])
  }

  /** Entry i fits after those from start on. */
  predicate FitsAt(ask: Ask, ents: seq<Entry>, start: nat, i: nat)
    requires start <= i < |ents|
  {
    Fits(ask, ents[i], i == start, ask.dircount - DirSum(ents, start, i),
        Left(ask) - CostSum(ask.procedure, ents, start, i))
  }

  function EndOf(ask: Ask, ents: seq<Entry>, start: nat, i: nat): (r: nat)
    requires start <= i <= |ents|
    ensures i <= r <= |ents|
    decreases |ents| - i
  {
    if i == |ents| || !FitsAt(ask, ents, start, i) then i else EndOf(ask, ents, start, i + 1)
  }

  function Left(ask: Ask): int {
    if ask.procedure.Readdir2? then ask.count else ask.count - FIXED
  }

  function Items(ents: seq<Entry>, start: nat, end: nat): (items: seq<Item>)
    requires start <= end <= |ents|
    ensures |items| == end - start
  {
    seq(end - start, j requires 0 <= j < end - start => Item(ents[start + j], CookieOf(ents, start + j)))
  }

  /** The page after a cookie: the entries that fit, and whether they are the last. */
  function PageAfter(ask: Ask, ents: seq<Entry>, cookie: nat): Page {
    var start := StartOf(ents, cookie);
    var end := EndOf(ask, ents, start, start);
    if end == start && start < |ents| then TooSmall else Page(Items(ents, start, end), end == |ents|)
  }

  // ----- the reply's bytes

  /** That an entry follows, its fileid, its name and its cookie. */
  function NameBytes(wide: bool, e: Entry, cookie: nat): (b: seq<byte>)
    ensures |b| == (if wide then 24 else 16) + Padded(|e.name|)
  {
    if wide then Word(1) + Words(e.fileid) + Opaque(e.name) + Words(cookie)
    else Word(1) + Word(e.fileid) + Opaque(e.name) + Word(cookie)
  }

  /** That attributes follow, the attributes, that a handle follows, and the handle. */
  function PlusBytes(e: Entry): (b: seq<byte>)
    requires EntryOK(e)
    ensures |b| == 4 + ATTR_SIZE + 4 + 4 + FH_SIZE
  {
    Word(1) + e.attr + Word(1) + Opaque(e.handle)
  }

  /** An entry in the reply; for READDIRPLUS its attributes and handle too. */
  function EntryBytes(procedure: Procedure, item: Item): (b: seq<byte>)
    requires EntryOK(item.entry)
    ensures |b| == Cost(procedure, item.entry)
  {
    match procedure
    case Readdir2 => NameBytes(false, item.entry, item.cookie)
    case Readdir3 => NameBytes(true, item.entry, item.cookie)
    case Readdirplus3 => NameBytes(true, item.entry, item.cookie) + PlusBytes(item.entry)
  }

  lemma Concat3(w: seq<byte>, a: seq<byte>, b: seq<byte>)
    ensures w + a + b == w + (a + b)
  {
  }

  lemma Concat4(w: seq<byte>, a: seq<byte>, b: seq<byte>, c: seq<byte>, d: seq<byte>)
    ensures w + a + b + c + d == w + (a + b + c + d)
  {
  }

  lemma NameAligned(e: Entry, cookie: nat)
    ensures |NameBytes(true, e, cookie)| % 4 == 0
  {
  }

  lemma SumAligned(a: nat, b: nat)
    requires a % 4 == 0 && b % 4 == 0
    ensures (a + b) % 4 == 0
  {
  }

  lemma CostAligned(procedure: Procedure, e: Entry)
    ensures Cost(procedure, e) % 4 == 0
  {
  }

  /** The fileid, name and cookie of an entry, in version 3's eight-byte fields or version 2's four. */
  method PutName(wide: bool, w: seq<byte>, e: Entry, cookie: nat) returns (b: seq<byte>)
    requires |w| % 4 == 0
    ensures b == w + NameBytes(wide, e, cookie)
  {
    if wide {
      b := PutOpaque(w + Word(1) + Words(e.fileid), e.name);
      b := b + Words(cookie);
      Concat4(w, Word(1), Words(e.fileid), Opaque(e.name), Words(cookie));
    } else {
      b := PutOpaque(w + Word(1) + Word(e.fileid), e.name);
      b := b + Word(cookie);
      Concat4(w, Word(1), Word(e.fileid), Opaque(e.name), Word(cookie));
    }
  }

  /** The attributes and handle that READDIRPLUS adds. */
  method PutPlus(w: seq<byte>, e: Entry) returns (b: seq<byte>)
    requires |w| % 4 == 0 && EntryOK(e)
    ensures b == w + PlusBytes(e)
  {
    b := PutOpaque(w + Word(1) + e.attr + Word(1), e.handle);
    Concat4(w, Word(1), e.attr, Word(1), Opaque(e.handle));
  }

  method PutEntry(procedure: Procedure, w: seq<byte>, e: Entry, cookie: nat) returns (b: seq<byte>)
    requires |w| % 4 == 0 && EntryOK(e)
    ensures b == w + EntryBytes(procedure, Item(e, cookie))
    ensures |b| == |w| + Cost(procedure, e) && |b| % 4 == 0
  {
    b := PutName(!procedure.Readdir2?, w, e, cookie);
    if procedure.Readdirplus3? {
      NameAligned(e, cookie);
      SumAligned(|w|, |NameBytes(true, e, cookie)|);
      b := PutPlus(b, e);
      Concat3(w, NameBytes(true, e, cookie), PlusBytes(e));
    }
    CostAligned(procedure, e);
    SumAligned(|w|, Cost(procedure, e));
  }

  /** Entries start to end of a listing, each in its bytes. */
  function EntryParts(procedure: Procedure, ents: seq<Entry>, start: nat, end: nat): (parts: seq<seq<byte>>)
    requires start <= end <= |ents| && forall i | 0 <= i < |ents| :: EntryOK(ents[i])
    ensures |parts| == end - start
  {
    seq(end - start, i requires 0 <= i < end - start =>
      EntryBytes(procedure, Item(ents[start + i], CookieOf(ents, start + i))))
  }

  /** One after the other. */
  function Flat(parts: seq<seq<byte>>): (b: seq<byte>) {
    if parts == [] then [] else Flat(parts[..|parts| - 1]) + parts[|parts| - 1]
  }

  function ListBytes(procedure: Procedure, ents: seq<Entry>, start: nat, end: nat): (b: seq<byte>)
    requires start <= end <= |ents| && forall i | 0 <= i < |ents| :: EntryOK(ents[i])
  {
    Flat(EntryParts(procedure, ents, start, end))
  }

  lemma FlatMore(parts: seq<seq<byte>>, b: seq<byte>)
    ensures Flat(parts + [b]) == Flat(parts) + b
  {
    assert (parts + [b])[..|parts|] == parts;
  }

  lemma PartsMore(procedure: Procedure, ents: seq<Entry>, start: nat, end: nat, b: seq<byte>)
    requires start <= end < |ents| && forall i | 0 <= i < |ents| :: EntryOK(ents[i])
    requires b == EntryBytes(procedure, Item(ents[end], CookieOf(ents, end)))
    ensures EntryParts(procedure, ents, start, end + 1) == EntryParts(procedure, ents, start, end) + [b]
  {
  }

  lemma ListMore(procedure: Procedure, ents: seq<Entry>, start: nat, end: nat, b: seq<byte>)
    requires start <= end < |ents| && forall i | 0 <= i < |ents| :: EntryOK(ents[i])
    requires b == EntryBytes(procedure, Item(ents[end], CookieOf(ents, end)))
    ensures ListBytes(procedure, ents, start, end + 1) == ListBytes(procedure, ents, start, end) + b
  {
    PartsMore(procedure, ents, start, end, b);
    FlatMore(EntryParts(procedure, ents, start, end), b);
  }

  /** The entry list of a reply: the entries, the terminator and eof. */
  function Body(procedure: Procedure, ents: seq<Entry>, start: nat, end: nat): seq<byte>
    requires start <= end <= |ents| && forall i | 0 <= i < |ents| :: EntryOK(ents[i])
  {
    ListBytes(procedure, ents, start, end) + Word(0) + Word(if end == |ents| then 1 else 0)
  }

  lemma DirCostIs(e: Entry, cookie: nat)
    ensures |NameBytes(true, e, cookie)| == |Word(1)| + DirCost(e)
  {
  }

  lemma {:induction false} ListCost(procedure: Procedure, ents: seq<Entry>, start: nat, end: nat)
    requires start <= end <= |ents| && forall i | 0 <= i < |ents| :: EntryOK(ents[i])
    ensures |ListBytes(procedure, ents, start, end)| == CostSum(procedure, ents, start, end)
    decreases end
  {
    if start < end {
      ListCost(procedure, ents, start, end - 1);
      ListMore(procedure, ents, start, end - 1, EntryBytes(procedure, Item(ents[end - 1], CookieOf(ents, end - 1))));
    }
  }

  /** Entries start to end and what else the reply holds keep to the client's counts. */
  predicate KeepsTo(ask: Ask, ents: seq<Entry>, start: nat, end: nat)
    requires start <= end <= |ents|
  {
    var bytes := CostSum(ask.procedure, ents, start, end);
    match ask.procedure
    case Readdir2 => end == start + 1 || bytes <= ask.count
    case Readdir3 => bytes + 108 <= ask.count
    case Readdirplus3 => bytes + 108 <= ask.count && DirSum(ents, start, end) <= ask.dircount
  }

  lemma KeepsOneMore(ask: Ask, ents: seq<Entry>, start: nat, i: nat)
    requires start <= i < |ents|
    ensures FitsAt(ask, ents, start, i) <==> KeepsTo(ask, ents, start, i + 1)
  {
  }

  lemma {:induction false} EndKeeps(ask: Ask, ents: seq<Entry>, start: nat, i: nat)
    requires start <= i <= |ents|
    requires start < i ==> KeepsTo(ask, ents, start, i)
    ensures var end := EndOf(ask, ents, start, i);
      (start < end ==> KeepsTo(ask, ents, start, end)) && (end < |ents| ==> !KeepsTo(ask, ents, start, end + 1))
    decreases |ents| - i
  {
    if i < |ents| {
      KeepsOneMore(ask, ents, start, i);
      if FitsAt(ask, ents, start, i) {
        EndKeeps(ask, ents, start, i + 1);
      }
    }
  }

  /** A page keeps to the client's counts, and with one entry more it would not. */
  lemma PageFull(ask: Ask, ents: seq<Entry>, cookie: nat)
    ensures var page, start := PageAfter(ask, ents, cookie), StartOf(ents, cookie);
      var end := start + if page.Page? then |page.items| else 0;
      && end <= |ents|
      && (start < end ==> KeepsTo(ask, ents, start, end))
      && ((if page.Page? then !page.eof else true) ==> end < |ents| && !KeepsTo(ask, ents, start, end + 1))
  {
    EndKeeps(ask, ents, StartOf(ents, cookie), StartOf(ents, cookie));
  }

  /** The index of the first entry after a cookie. */
  method ReaddirStart(ents: seq<Entry>, cookie: nat) returns (r: nat)
    ensures r == StartOf(ents, cookie)
  {
    if |ents| > 0 && ents[0].cookie != 0 {
      for i := 0 to |ents|
        invariant FirstAfter(ents, cookie, 0) == FirstAfter(ents, cookie, i)
      {
        if ents[i].cookie > cookie {
          return i;
        }
      }
      return |ents|;
    }
    r := if cookie < |ents| then cookie else |ents|;
  }

  /** How much of the reply is spent once entries start to end are in: all within the budget, or one entry too large. */
  predicate Spent(ask: Ask, ents: seq<Entry>, start: nat, end: nat, size: nat) {
    && (start == end ==> size == 0)
    && (start < end <= |ents| ==>
          size <= Left(ask) || (ask.procedure.Readdir2? && end == start + 1 && size == Cost(Readdir2, ents[start])))
  }

  /** The entries put in so far, and what is left of the budgets. */
  ghost predicate PutSoFar(ask: Ask, ents: seq<Entry>, start: nat, end: nat, body: seq<byte>, dirLeft: int, left: int)
    requires start <= end <= |ents| && forall i | 0 <= i < |ents| :: EntryOK(ents[i])
  {
    && body == ListBytes(ask.procedure, ents, start, end)
    && |body| % 4 == 0 && |body| == CostSum(ask.procedure, ents, start, end)
    && left == Left(ask) - |body| && dirLeft == ask.dircount - DirSum(ents, start, end)
    && Spent(ask, ents, start, end, |body|)
  }

  /** Puts in the next entry if it fits. */
  method PutNext(ask: Ask, ents: seq<Entry>, start: nat, end: nat, w: seq<byte>, dirWas: int, was: int)
    returns (fits: bool, b: seq<byte>, dirLeft: int, left: int)
    requires start <= end < |ents| && forall i | 0 <= i < |ents| :: EntryOK(ents[i])
    requires PutSoFar(ask, ents, start, end, w, dirWas, was)
    ensures EndOf(ask, ents, start, end) == if fits then EndOf(ask, ents, start, end + 1) else end
    ensures if fits then PutSoFar(ask, ents, start, end + 1, b, dirLeft, left)
            else PutSoFar(ask, ents, start, end, b, dirLeft, left)
  {
    var e := ents[end];
    fits, b, dirLeft, left := Fits(ask, e, end == start, dirWas, was), w, dirWas, was;
    if fits {
      dirLeft, left := dirLeft - DirCost(e), left - Cost(ask.procedure, e);
      b := PutEntry(ask.procedure, b, e, CookieOf(ents, end));
      ListMore(ask.procedure, ents, start, end, EntryBytes(ask.procedure, Item(e, CookieOf(ents, end))));
    }
  }

  /** Puts in entries from start on while they fit. */
  method PutEntries(ask: Ask, ents: seq<Entry>, start: nat) returns (end: nat, body: seq<byte>)
    requires start <= |ents| && forall i | 0 <= i < |ents| :: EntryOK(ents[i])
    ensures start <= end <= |ents| && end == EndOf(ask, ents, start, start)
    ensures body == ListBytes(ask.procedure, ents, start, end) && Spent(ask, ents, start, end, |body|)
  {
    end, body := start, [];
    var dirLeft: int, left: int := ask.dircount, Left(ask);
    var fits := true;
    while fits && end < |ents|
      invariant start <= end <= |ents| && PutSoFar(ask, ents, start, end, body, dirLeft, left)
      invariant EndOf(ask, ents, start, start) == if fits then EndOf(ask, ents, start, end) else end
      decreases |ents| - end, fits
    {
      fits, body, dirLeft, left := PutNext(ask, ents, start, end, body, dirLeft, left);
      end := if fits then end + 1 else end;
    }
  }

  /** The entries of a reply, then the terminator and eof; nothing when not even the first one fits. */
  method ReaddirEntries(ask: Ask, ents: seq<Entry>, cookie: nat)
      returns (ok: bool, body: seq<byte>, page: Page, ghost start: nat, ghost end: nat)
    requires forall i | 0 <= i < |ents| :: EntryOK(ents[i])
    ensures page == PageAfter(ask, ents, cookie) && ok == page.Page?
    ensures ok ==> start == StartOf(ents, cookie) <= end <= |ents| && end - start == |page.items|
    ensures ok ==> body == Body(ask.procedure, ents, start, end)
    ensures ok ==> |body| >= 8 && Spent(ask, ents, start, end, |body| - 8)
  {
    var from := ReaddirStart(ents, cookie);
    var i;
    i, body := PutEntries(ask, ents, from);
    start, end := from, i;
    if i == from && from < |ents| {
      return false, [], TooSmall, start, end;
    }
    ok, page := true, Page(Items(ents, from, i), i >= |ents|);
    body := body + Word(0) + Word(if i >= |ents| then 1 else 0);
  }

  /** Whether a version 3 reply will be within the count the client gave. */
  predicate WithinCount(ask: Ask, ents: seq<Entry>, cookie: nat) {
    FIXED <= ask.count || (TOO_SMALL_SIZE <= ask.count && StartOf(ents, cookie) < |ents|)
  }

  /**
   A whole version 3 reply. It is within the count the client gave if and only if the count covers a reply without
   entries, or entries are left and it covers the refusal to list them.
   */
  method Reply3(ask: Ask, ents: seq<Entry>, cookie: nat, dirAttr: seq<byte>)
    returns (reply: seq<byte>, page: Page, ghost start: nat, ghost end: nat)
    requires !ask.procedure.Readdir2? && |dirAttr| == ATTR_SIZE && forall i | 0 <= i < |ents| :: EntryOK(ents[i])
    ensures page == PageAfter(ask, ents, cookie)
    ensures page.TooSmall? ==> reply == Word(NFS3ERR_TOOSMALL) + Word(1) + dirAttr
    ensures page.Page? ==> start == StartOf(ents, cookie) <= end <= |ents| && end - start == |page.items|
    ensures page.Page? ==> reply == Word(0) + Word(1) + dirAttr + Words(0) + Body(ask.procedure, ents, start, end)
    ensures |reply| <= ask.count <==> WithinCount(ask, ents, cookie)
  {
    var ok, body;
    ok, body, page, start, end := ReaddirEntries(ask, ents, cookie);
    if !ok {
      reply := Word(NFS3ERR_TOOSMALL) + Word(1) + dirAttr;
      return;
    }
    var head := Word(0) + Word(1) + dirAttr + Words(0);
    reply := head + body;
    assert |head| == FIXED - 8;
  }

  /** An empty directory's reply is longer than a count of zero; so is the refusal when there is an entry. */
  method ReplyToNothing(dirAttr: seq<byte>, e: Entry) returns (empty: seq<byte>, refusal: seq<byte>)
    requires |dirAttr| == ATTR_SIZE && EntryOK(e)
    ensures |empty| == FIXED > 0 && |refusal| == TOO_SMALL_SIZE > 0
  {
    var ask := Ask(Readdir3, 0, 0);
    var page;
    ghost var start, end;
    NothingFits(ask, e);
    empty, page, start, end := Reply3(ask, [], 0, dirAttr);
    assert start == end == 0 && ListBytes(Readdir3, [], 0, 0) == [];
    refusal, page, start, end := Reply3(ask, [e], 0, dirAttr);
  }

  lemma NothingFits(ask: Ask, e: Entry)
    requires ask.procedure.Readdir3? && ask.count == 0
    ensures PageAfter(ask, [e], 0) == TooSmall
  {
    assert !FitsAt(ask, [e], 0, 0);
    assert EndOf(ask, [e], 0, 0) == 0;
  }
}
