/**
 What a client makes of the bytes of a READDIR reply, read as XDR (RFC 4506) in the layouts of RFC 1094 and RFC 1813.
 */
module ReaddirClient {
  import opened Bits
  import opened Xdr
  import opened Streams
  import opened Readdir

  /** An entry as it is told to the client; attributes and handle with READDIRPLUS only. */
  datatype Told = Told(fileid: nat, name: seq<byte>, cookie: nat, attr: Option<seq<byte>>, handle: Option<seq<byte>>)

  datatype Listing = Listing(entries: seq<Told>, eof: bool)

  datatype Answer =
    | Refused(status: nat, dirAttr: Option<seq<byte>>)
    | Listed(dirAttr: Option<seq<byte>>, verifier: nat, listing: Listing)

  // ----- the reader

  function ReadAttr(b: seq<byte>): (r: Read<Option<seq<byte>>>)
    ensures r.Read? ==> |r.rest| < |b|
  {
    match ReadFlag(b)
    case Garbled => Garbled
    case Read(follows, rest) =>
      if !follows then Read(None, rest)
      else if |rest| < 84 then Garbled
      else Read(Some(rest[..84]), rest[84..])
  }

  function ReadHandle(b: seq<byte>): (r: Read<Option<seq<byte>>>)
    ensures r.Read? ==> |r.rest| < |b|
  {
    match ReadFlag(b)
    case Garbled => Garbled
    case Read(follows, rest) =>
      if !follows then Read(None, rest)
      else
        match ReadOpaque(rest)
        case Garbled => Garbled
        case Read(handle, more) => Read(Some(handle), more)
  }

  /** A number of a version 3 or version 2 reply. */
  function ReadNumber(wide: bool, b: seq<byte>): (r: Read<nat>)
    ensures r.Read? ==> |r.rest| < |b|
  {
    if wide then ReadHyper(b) else ReadWord(b)
  }

  function ReadName(wide: bool, b: seq<byte>): (r: Read<Told>)
    ensures r.Read? ==> |r.rest| < |b|
  {
    match ReadNumber(wide, b)
    case Garbled => Garbled
    case Read(fileid, b1) =>
      match ReadOpaque(b1)
      case Garbled => Garbled
      case Read(name, b2) =>
        match ReadNumber(wide, b2)
        case Garbled => Garbled
        case Read(cookie, rest) => Read(Told(fileid, name, cookie, None, None), rest)
  }

  function ReadPlus(b: seq<byte>, e: Told): (r: Read<Told>)
    ensures r.Read? ==> |r.rest| < |b|
  {
    match ReadAttr(b)
    case Garbled => Garbled
    case Read(attr, b1) =>
      match ReadHandle(b1)
      case Garbled => Garbled
      case Read(handle, rest) => Read(e.(attr := attr, handle := handle), rest)
  }

  function ReadEntry(procedure: Procedure, b: seq<byte>): (r: Read<Told>)
    ensures r.Read? ==> |r.rest| < |b|
  {
    match ReadName(!procedure.Readdir2?, b)
    case Garbled => Garbled
    case Read(e, rest) => if procedure.Readdirplus3? then ReadPlus(rest, e) else Read(e, rest)
  }

  /** Entries as long as one follows, and then whether these were the last. */
  function ReadListing(procedure: Procedure, b: seq<byte>): (r: Read<Listing>)
    decreases |b|
  {
    match ReadFlag(b)
    case Garbled => Garbled
    case Read(follows, b1) => if follows then ReadMore(procedure, b1) else ReadEnd(b1)
  }

  function ReadMore(procedure: Procedure, b: seq<byte>): (r: Read<Listing>)
    decreases |b|
  {
    match ReadEntry(procedure, b)
    case Garbled => Garbled
    case Read(e, b1) =>
      match ReadListing(procedure, b1)
      case Garbled => Garbled
      case Read(l, rest) => Read(Listing([e] + l.entries, l.eof), rest)
  }

  function ReadEnd(b: seq<byte>): (r: Read<Listing>) {
    match ReadFlag(b)
    case Garbled => Garbled
    case Read(eof, rest) => Read(Listing([], eof), rest)
  }

  /** A version 3 reply: status, the directory's attributes, the cookie verifier and the entries. */
  function ReadReply(procedure: Procedure, b: seq<byte>): (r: Read<Answer>) {
    match ReadWord(b)
    case Garbled => Garbled
    case Read(status, b1) =>
      match ReadAttr(b1)
      case Garbled => Garbled
      case Read(attr, b2) => if status == 0 then ReadListed(procedure, attr, b2) else Read(Refused(status, attr), b2)
  }

  function ReadListed(procedure: Procedure, attr: Option<seq<byte>>, b: seq<byte>): (r: Read<Answer>) {
    match ReadHyper(b)
    case Garbled => Garbled
    case Read(verifier, b1) =>
      match ReadListing(procedure, b1)
      case Garbled => Garbled
      case Read(l, rest) => Read(Listed(attr, verifier, l), rest)
  }

  // ----- what the server tells

  /** The entry's numbers fit the reply's fields. */
  predicate FitsFields(procedure: Procedure, item: Item) {
    && FitsNumber(!procedure.Readdir2?, item.entry.fileid) && FitsNumber(!procedure.Readdir2?, item.cookie)
    && |item.entry.name| < 0x1_0000_0000
  }

  function Tell(procedure: Procedure, item: Item): Told {
    var e, plus := item.entry, procedure.Readdirplus3?;
    Told(e.fileid, e.name, item.cookie, if plus then Some(e.attr) else None, if plus then Some(e.handle) else None)
  }

  function TellAll(procedure: Procedure, items: seq<Item>): seq<Told> {
    seq(|items|, i requires 0 <= i < |items| => Tell(procedure, items[i]))
  }

  // ----- entries read back

  function Number(wide: bool, v: nat): seq<byte> { if wide then Words(v) else Word(v) }

  predicate FitsNumber(wide: bool, v: nat) { v < if wide then 0x1_0000_0000_0000_0000 else 0x1_0000_0000 }

  lemma NumberRead(wide: bool, v: nat, rest: seq<byte>)
    requires FitsNumber(wide, v)
    ensures ReadNumber(wide, Number(wide, v) + rest) == Read(v, rest)
  {
    if wide {
      WordsRead(v, rest);
    } else {
      WordRead(v, rest);
    }
  }

  lemma FlagRead(flag: bool, rest: seq<byte>)
    ensures ReadFlag(Word(if flag then 1 else 0) + rest) == Read(flag, rest)
  {
    WordRead(if flag then 1 else 0, rest);
  }

  lemma JoinedFour(a: seq<byte>, b: seq<byte>, c: seq<byte>, d: seq<byte>, rest: seq<byte>)
    ensures a + b + c + d + rest == a + (b + (c + (d + rest)))
  {
  }

  /** Behind the flag that says that an entry follows come its numbers and its name. */
  lemma NameRead(wide: bool, e: Entry, cookie: nat, rest: seq<byte>) returns (b: seq<byte>)
    requires FitsNumber(wide, e.fileid) && FitsNumber(wide, cookie) && |e.name| < 0x1_0000_0000
    ensures NameBytes(wide, e, cookie) + rest == Word(1) + b
    ensures ReadName(wide, b) == Read(Told(e.fileid, e.name, cookie, None, None), rest)
  {
    var b2 := Number(wide, cookie) + rest;
    var b1 := Opaque(e.name) + b2;
    b := Number(wide, e.fileid) + b1;
    JoinedFour(Word(1), Number(wide, e.fileid), Opaque(e.name), Number(wide, cookie), rest);
    NumberRead(wide, e.fileid, b1);
    OpaqueRead(e.name, b2);
    NumberRead(wide, cookie, rest);
  }

  lemma AttrRead(attr: seq<byte>, rest: seq<byte>)
    requires |attr| == ATTR_SIZE
    ensures ReadAttr(Word(1) + (attr + rest)) == Read(Some(attr), rest)
  {
    FlagRead(true, attr + rest);
    assert (attr + rest)[..84] == attr && (attr + rest)[84..] == rest;
  }

  lemma PlusRead(e: Entry, told: Told, rest: seq<byte>)
    requires EntryOK(e)
    ensures ReadPlus(PlusBytes(e) + rest, told) == Read(told.(attr := Some(e.attr), handle := Some(e.handle)), rest)
  {
    JoinedFour(Word(1), e.attr, Word(1), Opaque(e.handle), rest);
    AttrRead(e.attr, Word(1) + (Opaque(e.handle) + rest));
    FlagRead(true, Opaque(e.handle) + rest);
    OpaqueRead(e.handle, rest);
  }

  lemma EntryRead(procedure: Procedure, item: Item, rest: seq<byte>) returns (b: seq<byte>)
    requires EntryOK(item.entry) && FitsFields(procedure, item)
    ensures EntryBytes(procedure, item) + rest == Word(1) + b
    ensures ReadEntry(procedure, b) == Read(Tell(procedure, item), rest)
  {
    var e := item.entry;
    if procedure.Readdirplus3? {
      Joined(NameBytes(true, e, item.cookie), PlusBytes(e), rest);
      b := NameRead(true, e, item.cookie, PlusBytes(e) + rest);
      PlusRead(e, Told(e.fileid, e.name, item.cookie, None, None), rest);
    } else {
      b := NameRead(!procedure.Readdir2?, e, item.cookie, rest);
    }
  }

  // ----- replies read back

  /** A listing with other entries in front. */
  function Preceded(told: seq<Told>, r: Read<Listing>): Read<Listing> {
    match r
    case Garbled => Garbled
    case Read(l, rest) => Read(Listing(told + l.entries, l.eof), rest)
  }

  lemma PrecededLast(told: seq<Told>, n: nat, r: Read<Listing>)
    requires n + 1 == |told|
    ensures Preceded(told[..n], Preceded([told[n]], r)) == Preceded(told, r)
  {
    if r.Read? {
      assert told[..n] + ([told[n]] + r.value.entries) == told + r.value.entries;
    }
  }

  /** Bytes that, in front of others, tell of one entry more. */
  ghost predicate TellsOf(procedure: Procedure, b: seq<byte>, e: Told) {
    forall more: seq<byte> :: ReadListing(procedure, b + more) == Preceded([e], ReadListing(procedure, more))
  }

  lemma EntryTells(procedure: Procedure, item: Item)
    requires EntryOK(item.entry) && FitsFields(procedure, item)
    ensures TellsOf(procedure, EntryBytes(procedure, item), Tell(procedure, item))
  {
    forall more: seq<byte>
      ensures ReadListing(procedure, EntryBytes(procedure, item) + more)
           == Preceded([Tell(procedure, item)], ReadListing(procedure, more))
    {
      var b := EntryRead(procedure, item, more);
      FlagRead(true, b);
    }
  }

  // ----- lists read back

  /** Parts that tell of one entry each are read as these entries. */
  lemma {:induction false} FlatRead(procedure: Procedure, parts: seq<seq<byte>>, told: seq<Told>, tail: seq<byte>)
    requires |parts| == |told| && forall i | 0 <= i < |parts| :: TellsOf(procedure, parts[i], told[i])
    ensures ReadListing(procedure, Flat(parts) + tail) == Preceded(told, ReadListing(procedure, tail))
  {
    if parts == [] {
      assert [] + tail == tail;
      NonePrecede(ReadListing(procedure, tail));
    } else {
      var n := |parts| - 1;
      Joined(Flat(parts[..n]), parts[n], tail);
      FlatRead(procedure, parts[..n], told[..n], parts[n] + tail);
      assert TellsOf(procedure, parts[n], told[n]);
      PrecededLast(told, n, ReadListing(procedure, tail));
    }
  }

  lemma NonePrecede(r: Read<Listing>)
    ensures Preceded([], r) == r
  {
    if r.Read? {
      assert [] + r.value.entries == r.value.entries;
    }
  }

  predicate AllFit(procedure: Procedure, ents: seq<Entry>) {
    forall i | 0 <= i < |ents| :: EntryOK(ents[i]) && FitsFields(procedure, Item(ents[i], CookieOf(ents, i)))
  }

  lemma PartsTell(procedure: Procedure, ents: seq<Entry>, start: nat, end: nat, told: seq<Told>)
    requires start <= end <= |ents| && AllFit(procedure, ents) && told == TellAll(procedure, Items(ents, start, end))
    ensures |told| == end - start
    ensures forall i | 0 <= i < end - start :: TellsOf(procedure, EntryParts(procedure, ents, start, end)[i], told[i])
  {
    forall i | 0 <= i < end - start ensures TellsOf(procedure, EntryParts(procedure, ents, start, end)[i], told[i]) {
      EntryTells(procedure, Item(ents[start + i], CookieOf(ents, start + i)));
    }
  }

  /** Behind the entries: that no other follows, and whether they were the last. */
  function Tail(eof: bool): seq<byte> {
    Word(0) + Word(if eof then 1 else 0)
  }

  lemma TailRead(procedure: Procedure, eof: bool)
    ensures ReadListing(procedure, Tail(eof)) == Read(Listing([], eof), [])
  {
    var last := Word(if eof then 1 else 0);
    FlagRead(false, last);
    assert last + [] == last;
    FlagRead(eof, []);
  }

  /** The entry list of a reply is read as its entries, and whether they are the last. */
  lemma BodyRead(procedure: Procedure, ents: seq<Entry>, start: nat, end: nat, told: seq<Told>)
    requires start <= end <= |ents| && AllFit(procedure, ents) && told == TellAll(procedure, Items(ents, start, end))
    ensures ReadListing(procedure, Body(procedure, ents, start, end)) == Read(Listing(told, end == |ents|), [])
  {
    var parts, eof := EntryParts(procedure, ents, start, end), end == |ents|;
    PartsTell(procedure, ents, start, end, told);
    Joined(Flat(parts), Word(0), Word(if eof then 1 else 0));
    FlatRead(procedure, parts, told, Tail(eof));
    TailRead(procedure, eof);
    assert told + [] == told;
  }

  lemma PageIs(ask: Ask, ents: seq<Entry>, cookie: nat, start: nat, end: nat)
    requires PageAfter(ask, ents, cookie).Page? && start == StartOf(ents, cookie) <= end
    requires end - start == |PageAfter(ask, ents, cookie).items|
    ensures end <= |ents| && PageAfter(ask, ents, cookie) == Page(Items(ents, start, end), end == |ents|)
  {
  }

  // ----- whole replies

  /** What a client is to make of a page. */
  function Meant(procedure: Procedure, page: Page, dirAttr: seq<byte>): Answer {
    match page
    case TooSmall => Refused(NFS3ERR_TOOSMALL, Some(dirAttr))
    case Page(items, eof) => Answer.Listed(Some(dirAttr), 0, Listing(TellAll(procedure, items), eof))
  }

  lemma HeadRead(procedure: Procedure, dirAttr: seq<byte>, body: seq<byte>, l: Listing)
    requires |dirAttr| == ATTR_SIZE && ReadListing(procedure, body) == Read(l, [])
    ensures ReadReply(procedure, Word(0) + Word(1) + dirAttr + Words(0) + body)
         == Read(Answer.Listed(Some(dirAttr), 0, l), [])
  {
    JoinedFour(Word(0), Word(1), dirAttr, Words(0), body);
    WordRead(0, Word(1) + (dirAttr + (Words(0) + body)));
    AttrRead(dirAttr, Words(0) + body);
    WordsRead(0, body);
  }

  lemma RefusalRead(procedure: Procedure, dirAttr: seq<byte>)
    requires |dirAttr| == ATTR_SIZE
    ensures ReadReply(procedure, Word(NFS3ERR_TOOSMALL) + Word(1) + dirAttr)
         == Read(Refused(NFS3ERR_TOOSMALL, Some(dirAttr)), [])
  {
    assert Word(NFS3ERR_TOOSMALL) + Word(1) + dirAttr == Word(NFS3ERR_TOOSMALL) + (Word(1) + (dirAttr + []));
    WordRead(NFS3ERR_TOOSMALL, Word(1) + (dirAttr + []));
    AttrRead(dirAttr, []);
  }

  /** A client reads a version 3 reply as the page it holds: every field of every entry, in order, and eof. */
  method Ask3(ask: Ask, ents: seq<Entry>, cookie: nat, dirAttr: seq<byte>)
    returns (reply: seq<byte>, ghost page: Page)
    requires !ask.procedure.Readdir2? && |dirAttr| == ATTR_SIZE && AllFit(ask.procedure, ents)
    ensures page == PageAfter(ask, ents, cookie)
    ensures ReadReply(ask.procedure, reply) == Read(Meant(ask.procedure, page, dirAttr), [])
  {
    ghost var start, end;
    reply, page, start, end := Reply3(ask, ents, cookie, dirAttr);
    if page.Page? {
      PageIs(ask, ents, cookie, start, end);
      BodyRead(ask.procedure, ents, start, end, TellAll(ask.procedure, page.items));
      HeadRead(ask.procedure, dirAttr, Body(ask.procedure, ents, start, end),
               Listing(TellAll(ask.procedure, page.items), page.eof));
    } else {
      RefusalRead(ask.procedure, dirAttr);
    }
  }

  /** And the entry list of a version 2 reply. */
  method Ask2(ask: Ask, ents: seq<Entry>, cookie: nat) returns (ok: bool, body: seq<byte>, ghost page: Page)
    requires ask.procedure.Readdir2? && AllFit(Readdir2, ents)
    ensures page == PageAfter(ask, ents, cookie) && ok == page.Page?
    ensures ok ==> ReadListing(Readdir2, body) == Read(Listing(TellAll(Readdir2, page.items), page.eof), [])
  {
    ghost var start, end;
    var p;
    ok, body, p, start, end := ReaddirEntries(ask, ents, cookie);
    page := p;
    if ok {
      PageIs(ask, ents, cookie, start, end);
      BodyRead(Readdir2, ents, start, end, TellAll(Readdir2, page.items));
    }
  }
}
