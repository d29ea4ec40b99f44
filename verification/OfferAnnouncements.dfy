/**
 The offer announcements: for every position an append-only file of fixed-length identities, each
 listed once, and the pages in which it is read. Each operation is one step here; that the lock makes
 it one, over every interleaving, is proved in OfferLog.
 */
module OfferAnnouncements {
  import opened Basics
  import opened Bytes

  const IDENTITY := 64
  const PAGE_ENTRIES := 64

  type Identity = seq<byte>

  // ----- Records -----

  function Records(bytes: seq<byte>): (records: seq<Identity>)
    requires |bytes| % IDENTITY == 0
    ensures |records| == |bytes| / IDENTITY
  {
    if bytes == [] then [] else [bytes[..IDENTITY]] + Records(bytes[IDENTITY..])
  }

  function Flat(records: seq<Identity>): seq<byte> {
    if records == [] then [] else records[0] + Flat(records[1..])
  }

  predicate Identities(records: seq<Identity>) {
    forall i | 0 <= i < |records| :: |records[i]| == IDENTITY
  }

  lemma {:induction false} RecordAt(bytes: seq<byte>, i: nat)
    requires |bytes| % IDENTITY == 0 && i < |bytes| / IDENTITY
    ensures Records(bytes)[i] == bytes[i * IDENTITY..][..IDENTITY]
  {
    if i > 0 {
      RecordAt(bytes[IDENTITY..], i - 1);
      assert bytes[IDENTITY..][(i - 1) * IDENTITY..] == bytes[i * IDENTITY..];
    }
  }

  lemma {:induction false} RecordsOfFlat(records: seq<Identity>)
    requires Identities(records)
    ensures |Flat(records)| == |records| * IDENTITY
    ensures Records(Flat(records)) == records
  {
    if records != [] {
      RecordsOfFlat(records[1..]);
      assert Flat(records)[..IDENTITY] == records[0] && Flat(records)[IDENTITY..] == Flat(records[1..]);
    }
  }

  lemma {:induction false} FlatOfRecords(bytes: seq<byte>)
    requires |bytes| % IDENTITY == 0
    ensures Flat(Records(bytes)) == bytes && Identities(Records(bytes))
  {
    if bytes != [] {
      FlatOfRecords(bytes[IDENTITY..]);
      assert Records(bytes)[1..] == Records(bytes[IDENTITY..]);
      assert bytes[..IDENTITY] + bytes[IDENTITY..] == bytes;
    }
  }

  lemma {:induction false} RecordsAdd(bytes: seq<byte>, identity: Identity)
    requires |bytes| % IDENTITY == 0 && |identity| == IDENTITY
    ensures |bytes + identity| % IDENTITY == 0 && Records(bytes + identity) == Records(bytes) + [identity]
  {
    var longer := bytes + identity;
    assert |longer| == |bytes| + IDENTITY;
    if bytes == [] {
      assert longer == identity && longer[..IDENTITY] == identity && longer[IDENTITY..] == [];
    } else {
      RecordsAdd(bytes[IDENTITY..], identity);
      assert longer[..IDENTITY] == bytes[..IDENTITY];
      assert longer[IDENTITY..] == bytes[IDENTITY..] + identity;
    }
  }

  // ----- What a run of announcements lists -----

  function AddOnce<T(==)>(listed: seq<T>, identity: T): seq<T> {
    if identity in listed then listed else listed + [identity]
  }

  function AnnounceAll<T(==)>(identities: seq<T>): seq<T> {
    if identities == [] then []
    else AddOnce(AnnounceAll(identities[..|identities| - 1]), identities[|identities| - 1])
  }

  /** Whatever is announced, and however often, is listed once, and never moves. */
  lemma {:induction false} EverythingIsListedOnce(identities: seq<Identity>)
    ensures forall x :: x in AnnounceAll(identities) <==> x in identities
    ensures forall i, j | 0 <= i < j < |AnnounceAll(identities)| ::
              AnnounceAll(identities)[i] != AnnounceAll(identities)[j]
  {
    if identities != [] {
      var front, last := identities[..|identities| - 1], identities[|identities| - 1];
      EverythingIsListedOnce(front);
      assert identities == front + [last];
    }
  }

  lemma {:induction false} ListsOnlyGrow(identities: seq<Identity>, n: nat)
    requires n <= |identities|
    ensures AnnounceAll(identities[..n]) <= AnnounceAll(identities)
  {
    if n < |identities| {
      var front := identities[..|identities| - 1];
      ListsOnlyGrow(front, n);
      assert front[..n] == identities[..n];
    } else {
      assert identities[..n] == identities;
    }
  }

  // ----- Pages -----

  datatype Page = Page(total: nat, entries: seq<Identity>)

  predicate PageFits(page: Page) {
    page.total <= MAX_SAFE && |page.entries| <= PAGE_ENTRIES && |page.entries| <= page.total && Identities(page.entries)
  }

  function EncodePage(page: Page): seq<byte> {
    LittleEndian(page.total, 8) + LittleEndian(|page.entries|, 4) + Flat(page.entries)
  }

  /** The reader's checks. */
  function DecodePage(bytes: seq<byte>): Option<Page> {
    if |bytes| < 12 || |bytes| > 12 + PAGE_ENTRIES * IDENTITY then None
    else
      var total, count := Value(bytes[..8]), Value(bytes[8..12]);
      if total > MAX_SAFE || count > PAGE_ENTRIES || count > total || |bytes| != 12 + count * IDENTITY then None
      else Some(Page(total, Records(bytes[12..])))
  }

  lemma PowersOf256()
    ensures Power(4) == 0x1_0000_0000 && Power(8) == 0x1_0000_0000_0000_0000
  {
    assert Power(4) == 256 * (256 * (256 * (256 * 1)));
    assert Power(8) == 256 * (256 * (256 * (256 * Power(4))));
  }

  lemma EncodedPageDecodes(page: Page)
    requires PageFits(page)
    ensures DecodePage(EncodePage(page)) == Some(page)
  {
    var bytes := EncodePage(page);
    PowersOf256();
    ValueOfLittleEndian(page.total, 8);
    ValueOfLittleEndian(|page.entries|, 4);
    RecordsOfFlat(page.entries);
    assert bytes[..8] == LittleEndian(page.total, 8);
    assert bytes[8..12] == LittleEndian(|page.entries|, 4);
    assert bytes[12..] == Flat(page.entries);
  }

  /** A whole number of records holds that number. */
  lemma RecordsCount(bytes: seq<byte>, count: nat)
    requires |bytes| == count * IDENTITY
    ensures |bytes| % IDENTITY == 0 && |Records(bytes)| == count
  {
  }

  lemma PartsJoin(bytes: seq<byte>, total: seq<byte>, count: seq<byte>, entries: seq<byte>)
    requires |bytes| >= 12 && total == bytes[..8] && count == bytes[8..12] && entries == bytes[12..]
    ensures total + count + entries == bytes
  {
  }

  lemma DecodedPageEncodes(bytes: seq<byte>)
    requires DecodePage(bytes).Some?
    ensures PageFits(DecodePage(bytes).value) && EncodePage(DecodePage(bytes).value) == bytes
  {
    var total, count, entries := bytes[..8], bytes[8..12], bytes[12..];
    RecordsCount(entries, Value(count));
    LittleEndianOfValue(total);
    LittleEndianOfValue(count);
    FlatOfRecords(entries);
    PartsJoin(bytes, total, count, entries);
  }

  /** The reader accepts exactly the bytes that encode a page within the bounds, as that page. */
  lemma PagesDecodeExactly(bytes: seq<byte>, page: Page)
    ensures DecodePage(bytes) == Some(page) <==> PageFits(page) && bytes == EncodePage(page)
  {
    if PageFits(page) {
      EncodedPageDecodes(page);
    }
    if DecodePage(bytes).Some? {
      DecodedPageEncodes(bytes);
    }
  }

  // ----- The store -----

  function FileOf(files: map<nat, seq<byte>>, position: nat): seq<byte> {
    if position in files then files[position] else []
  }

  predicate Whole(file: seq<byte>) {
    |file| <= MAX_SAFE && |file| % IDENTITY == 0
  }

  class OfferStore {
    var files: map<nat, seq<byte>>

    constructor ()
      ensures files == map[]
    {
      files := map[];
    }

    /** Lists an identity unless it is listed; refuses a wrong length and a file that ends within a record. */
    method Append(position: nat, identity: Identity) returns (ok: bool)
      modifies this
      ensures var file := FileOf(old(files), position);
              ok <==> |identity| == 64 && |file| <= 0x1F_FFFF_FFFF_FFFF && |file| % 64 == 0
      ensures forall other | other != position :: FileOf(files, other) == FileOf(old(files), other)
      ensures !ok ==> files == old(files)
      ensures ok ==>
                && |FileOf(files, position)| % IDENTITY == 0
                && Records(FileOf(files, position)) == AddOnce(Records(FileOf(old(files), position)), identity)
    {
      var file := FileOf(files, position);
      if |identity| != IDENTITY || !Whole(file) {
        return false;
      }
      ok := true;
      var listed := Lists(file, identity);
      if !listed {
        RecordsAdd(file, identity);
        files := files[position := file + identity];
      }
    }

    /** Compares the records of a file with an identity, one after the other. */
    method Lists(file: seq<byte>, identity: Identity) returns (listed: bool)
      requires Whole(file)
      ensures listed <==> identity in Records(file)
    {
      var offset := 0;
      ghost var i, records := 0, Records(file);
      while offset < |file|
        invariant offset == i * IDENTITY && i <= |records|
        invariant identity !in records[..i]
      {
        RecordAt(file, i);
        var previous := file[offset..offset + IDENTITY];
        assert file[offset..][..IDENTITY] == previous;
        if previous == identity {
          return true;
        }
        offset, i := offset + IDENTITY, i + 1;
      }
      assert records[..i] == records;
      listed := false;
    }

    /** One page, in the bytes its reader decodes. */
    method ReadPage(position: nat, offset: nat) returns (page: Option<seq<byte>>)
      ensures page.Some? <==>
                |FileOf(files, position)| <= 0x1F_FFFF_FFFF_FFFF && |FileOf(files, position)| % 64 == 0
      ensures page.Some? ==>
                var listed := Records(FileOf(files, position));
                DecodePage(page.value) == Some(Page(|listed|, Slice(listed, offset, PAGE_ENTRIES)))
      ensures page.Some? ==> Serves(page.value, Records(FileOf(files, position)), offset)
    {
      var file := FileOf(files, position);
      if !Whole(file) {
        return None;
      }
      var total := |file| / IDENTITY;
      var count := PageCount(total, offset, PAGE_ENTRIES);
      var body: seq<byte> := [];
      if count != 0 {
        body := file[offset * IDENTITY..][..count * IDENTITY];
        BodyIsTheStretch(file, offset, count);
      }
      page := Some(LittleEndian(total, 8) + LittleEndian(count, 4) + body);
      StretchFits(file, offset, body);
      EncodedPageDecodes(Page(total, Slice(Records(file), offset, PAGE_ENTRIES)));
      ServesItsPage(page.value, Records(file), offset);
    }
  }

  /** Bytes that serve a page of a list: its length, the number of entries, and the entries one after the other. */
  predicate Serves(bytes: seq<byte>, listed: seq<Identity>, offset: nat) {
    && |bytes| >= 12 && (|bytes| - 12) % 64 == 0
    && Value(bytes[0..8]) == |listed| && Value(bytes[8..12]) == (|bytes| - 12) / 64
    && IsPageOf(listed, offset, seq((|bytes| - 12) / 64, k requires 0 <= k < (|bytes| - 12) / 64 =>
                                      bytes[12 + 64 * k..12 + 64 * k + 64]))
  }

  lemma ServesItsPage(bytes: seq<byte>, listed: seq<Identity>, offset: nat)
    requires DecodePage(bytes) == Some(Page(|listed|, Slice(listed, offset, 64)))
    ensures Serves(bytes, listed, offset)
  {
    var body, page := bytes[12..], Slice(listed, offset, 64);
    SlicesArePages(listed, offset);
    assert bytes[0..8] == bytes[..8];
    var count := (|bytes| - 12) / 64;
    var entries := seq(count, k requires 0 <= k < count => bytes[12 + 64 * k..12 + 64 * k + 64]);
    forall k | 0 <= k < |entries| ensures entries[k] == page[k] {
      RecordAt(body, k);
      assert body[k * 64..][..64] == bytes[12 + 64 * k..12 + 64 * k + 64];
    }
    assert entries == page;
  }

  lemma StretchFits(file: seq<byte>, offset: nat, body: seq<byte>)
    requires Whole(file)
    requires var listed := Records(file);
             if PageCount(|listed|, offset, PAGE_ENTRIES) == 0 then body == []
             else
               && |body| % IDENTITY == 0
               && Records(body) == Slice(listed, offset, PAGE_ENTRIES) && Flat(Records(body)) == body
    ensures var stretch := Slice(Records(file), offset, PAGE_ENTRIES);
            && Flat(stretch) == body && PageFits(Page(|file| / IDENTITY, stretch))
            && |stretch| == PageCount(|file| / IDENTITY, offset, PAGE_ENTRIES)
  {
    FlatOfRecords(file);
  }

  lemma {:induction false} RecordsDrop(file: seq<byte>, n: nat)
    requires |file| % IDENTITY == 0 && n <= |file| / IDENTITY
    ensures Records(file[n * IDENTITY..]) == Records(file)[n..]
  {
    if n == 0 {
      assert file[0..] == file;
    } else {
      RecordsDrop(file[IDENTITY..], n - 1);
      assert file[IDENTITY..][(n - 1) * IDENTITY..] == file[n * IDENTITY..];
    }
  }

  lemma {:induction false} RecordsTake(file: seq<byte>, n: nat)
    requires |file| % IDENTITY == 0 && n <= |file| / IDENTITY
    ensures Records(file[..n * IDENTITY]) == Records(file)[..n]
  {
    if n > 0 {
      var taken := file[..n * IDENTITY];
      RecordsTake(file[IDENTITY..], n - 1);
      assert taken[IDENTITY..] == file[IDENTITY..][..(n - 1) * IDENTITY];
      assert taken[..IDENTITY] == file[..IDENTITY];
    }
  }

  /** The bytes of a page are those of its stretch of the list. */
  lemma BodyIsTheStretch(file: seq<byte>, offset: nat, count: nat)
    requires |file| % IDENTITY == 0 && offset + count <= |file| / IDENTITY
    ensures var body := file[offset * IDENTITY..][..count * IDENTITY];
            |body| % IDENTITY == 0 && Records(body) == Records(file)[offset..][..count] && Flat(Records(body)) == body
  {
    var tail := file[offset * IDENTITY..];
    RecordsDrop(file, offset);
    RecordsTake(tail, count);
    FlatOfRecords(tail[..count * IDENTITY]);
  }
}
